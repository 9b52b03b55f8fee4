/**
  Position reconciliation of `reconciliation.py`: internal rows are compared with the broker's by id, and the
  comparison is shown to agree with the synchronisation of `positions.py`.
*/
module Reconciliation {
  import opened Grouping
  import opened Positions
  import opened Text

  const AMOUNT_TOLERANCE := 0.01

  /**
    The rows compared: what the reconciliation endpoint reads off a position, and a broker row with its quantity key.
  */
  datatype InternalRow = InternalRow(id: string, quantity: int, averagePrice: real, isOpen: bool)
  datatype ExternalRow = ExternalRow(id: string, quantity: int, averagePrice: real)

  datatype Finding = MissingOnBroker | QuantityMismatch | PriceMismatch | BrokerOrphan

  /** Every finding of the position comparison is marked to block. */
  datatype ReconResult = Matched | Mismatched(id: string, finding: Finding, magnitude: real, shouldBlock: bool)

  function Block(id: string, finding: Finding, magnitude: real): ReconResult {
    Mismatched(id, finding, magnitude, true)
  }

  function IdOf(r: InternalRow): string { r.id }
  function BrokerIdOf(r: ExternalRow): string { r.id }

  function Distance(x: real, y: real): real { if x < y then y - x else x - y }

  /** What the comparison finds for one id of the internal side. */
  function Compare(i: InternalRow, b: Option<ExternalRow>): seq<ReconResult> {
    match b
    case None => if i.isOpen then [Block(i.id, MissingOnBroker, 0.0)] else []
    case Some(e) =>
      (if i.quantity != e.quantity
       then [Block(i.id, QuantityMismatch, Distance(i.quantity as real, e.quantity as real))]
       else [])
      + (if Distance(i.averagePrice, e.averagePrice) > AMOUNT_TOLERANCE && i.quantity != 0
         then [Block(i.id, PriceMismatch, Distance(i.averagePrice, e.averagePrice))] else [])
  }

  function Counterpart(broker: map<string, ExternalRow>, id: string): Option<ExternalRow> {
    if id in broker then Some(broker[id]) else None
  }

  function Inward(internal: map<string, InternalRow>, broker: map<string, ExternalRow>): string -> seq<ReconResult> {
    id => if id in internal then Compare(internal[id], Counterpart(broker, id)) else []
  }

  function Outward(internal: map<string, InternalRow>, broker: map<string, ExternalRow>): string -> seq<ReconResult> {
    id => if id !in internal && id in broker && broker[id].quantity != 0 then [Block(id, BrokerOrphan, 0.0)] else []
  }

  /** The findings: internal ids in order of first appearance, then broker ids. */
  function Findings(internal: seq<InternalRow>, broker: seq<ExternalRow>): seq<ReconResult> {
    var ours, theirs := Dict(internal, IdOf), Dict(broker, BrokerIdOf);
    Merge(Keys(internal, IdOf), Inward(ours, theirs)) + Merge(Keys(broker, BrokerIdOf), Outward(ours, theirs))
  }

  method ReconcilePositions(internal: seq<InternalRow>, broker: seq<ExternalRow>) returns (results: seq<ReconResult>)
    ensures var findings := Findings(internal, broker);
            results == if findings == [] then [Matched] else findings
  {
    var bids, theirs := BuildDict(broker, BrokerIdOf);
    var iids, ours := BuildDict(internal, IdOf);
    DictFinds(internal, IdOf);
    DictFinds(broker, BrokerIdOf);
    results := [];
    ghost var inward, outward := Inward(ours, theirs), Outward(ours, theirs);
    MergeNone(iids, inward);
    hide Merge, Keys, Dict;
    for i := 0 to |iids|
      invariant results == Merge(iids[..i], inward)
    {
      MergeSnoc(iids, i, inward);
      var id := iids[i];
      var ipos := ours[id];
      if id !in theirs {
        if ipos.isOpen { results := results + [Block(id, MissingOnBroker, 0.0)]; }
      } else {
        var bpos, found := theirs[id], [];
        if ipos.quantity != bpos.quantity {
          found := found + [Block(id, QuantityMismatch, Distance(ipos.quantity as real, bpos.quantity as real))];
        }
        var gap := Distance(ipos.averagePrice, bpos.averagePrice);
        if gap > AMOUNT_TOLERANCE && ipos.quantity != 0 { found := found + [Block(id, PriceMismatch, gap)]; }
        results := results + found;
      }
    }
    assert iids[..|iids|] == iids;
    ghost var inside := results;
    MergeNone(bids, outward);
    for i := 0 to |bids|
      invariant results == inside + Merge(bids[..i], outward)
    {
      MergeSnoc(bids, i, outward);
      var id := bids[i];
      if id !in ours && theirs[id].quantity != 0 { results := results + [Block(id, BrokerOrphan, 0.0)]; }
      Assoc(inside, Merge(bids[..i], outward), outward(id));
    }
    assert bids[..|bids|] == bids;
    if results == [] { results := [Matched]; }
  }

  datatype Health = HEALTHY | DEGRADED | BLOCKED

  method HealthOf(results: seq<ReconResult>) returns (health: Health)
    ensures health == HealthIs(results)
    ensures health == BLOCKED <==> exists r | r in results :: r.Mismatched? && r.shouldBlock
    ensures health == HEALTHY <==> forall r | r in results :: r.Matched?
  {
    var block, mismatch := false, false;
    for i := 0 to |results|
      invariant block <==> exists j | 0 <= j < i :: results[j].Mismatched? && results[j].shouldBlock
      invariant mismatch <==> exists j | 0 <= j < i :: results[j].Mismatched?
    {
      if results[i].Mismatched? {
        mismatch := true;
        if results[i].shouldBlock { block := true; }
      }
    }
    health := if block then BLOCKED else if mismatch then DEGRADED else HEALTHY;
  }

  function HealthIs(results: seq<ReconResult>): Health {
    if exists r | r in results :: r.Mismatched? && r.shouldBlock then BLOCKED
    else if exists r | r in results :: r.Mismatched? then DEGRADED
    else HEALTHY
  }

  function Report(internal: seq<InternalRow>, broker: seq<ExternalRow>): seq<ReconResult> {
    if Findings(internal, broker) == [] then [Matched] else Findings(internal, broker)
  }

  lemma {:induction false} MergeHas(ks: seq<string>, result: string -> seq<ReconResult>, r: ReconResult)
    ensures r in Merge(ks, result) <==> exists k | k in ks :: r in result(k)
    decreases |ks|
  {
    if ks == [] {
    } else {
      MergeHas(ks[..|ks| - 1], result, r);
      assert ks == ks[..|ks| - 1] + [ks[|ks| - 1]];
    }
  }

  /** What the two sides disagree on. */
  predicate Disagrees(ours: map<string, InternalRow>, theirs: map<string, ExternalRow>, r: ReconResult) {
    && r.Mismatched? && r.shouldBlock
    && match r.finding
       case MissingOnBroker => r.id in ours && r.id !in theirs && ours[r.id].isOpen && r.magnitude == 0.0
       case QuantityMismatch =>
         && r.id in ours && r.id in theirs && ours[r.id].quantity != theirs[r.id].quantity
         && r.magnitude == Distance(ours[r.id].quantity as real, theirs[r.id].quantity as real)
       case PriceMismatch =>
         && r.id in ours && r.id in theirs && ours[r.id].quantity != 0
         && r.magnitude == Distance(ours[r.id].averagePrice, theirs[r.id].averagePrice) > AMOUNT_TOLERANCE
       case BrokerOrphan => r.id !in ours && r.id in theirs && theirs[r.id].quantity != 0 && r.magnitude == 0.0
  }

  /** Prices disagree when they lie more than a hundredth apart, whichever is greater. */
  lemma PricesDisagreeIff(ours: map<string, InternalRow>, theirs: map<string, ExternalRow>, id: string, magnitude: real)
    requires id in ours && id in theirs
    ensures var x, y := ours[id].averagePrice, theirs[id].averagePrice;
            Disagrees(ours, theirs, Mismatched(id, PriceMismatch, magnitude, true)) <==>
              && ours[id].quantity != 0 && (100.0 * x > 100.0 * y + 1.0 || 100.0 * y > 100.0 * x + 1.0)
              && magnitude >= 0.0 && (magnitude == x - y || magnitude == y - x)
  {
  }

  lemma InwardHas(ours: map<string, InternalRow>, theirs: map<string, ExternalRow>, id: string, r: ReconResult)
    requires forall k | k in ours :: ours[k].id == k
    ensures r in Inward(ours, theirs)(id) <==> Disagrees(ours, theirs, r) && !r.finding.BrokerOrphan? && r.id == id
  {
  }

  lemma OutwardHas(ours: map<string, InternalRow>, theirs: map<string, ExternalRow>, id: string, r: ReconResult)
    ensures r in Outward(ours, theirs)(id) <==> Disagrees(ours, theirs, r) && r.finding.BrokerOrphan? && r.id == id
  {
  }

  /** The report holds exactly the disagreements. */
  lemma ReportIsExact(internal: seq<InternalRow>, broker: seq<ExternalRow>, r: ReconResult)
    ensures r in Findings(internal, broker) <==> Disagrees(Dict(internal, IdOf), Dict(broker, BrokerIdOf), r)
  {
    var ours, theirs := Dict(internal, IdOf), Dict(broker, BrokerIdOf);
    DictFinds(internal, IdOf);
    DictFinds(broker, BrokerIdOf);
    hide Merge, Keys, Dict, Inward, Outward;
    MergeHas(Keys(internal, IdOf), Inward(ours, theirs), r);
    MergeHas(Keys(broker, BrokerIdOf), Outward(ours, theirs), r);
    forall id
      ensures r in Inward(ours, theirs)(id) <==> Disagrees(ours, theirs, r) && !r.finding.BrokerOrphan? && r.id == id
    {
      InwardHas(ours, theirs, id, r);
    }
    forall id
      ensures r in Outward(ours, theirs)(id) <==> Disagrees(ours, theirs, r) && r.finding.BrokerOrphan? && r.id == id
    {
      OutwardHas(ours, theirs, id, r);
    }
    assert Disagrees(ours, theirs, r) ==>
        r.id in (if r.finding.BrokerOrphan? then Keys(broker, BrokerIdOf) else Keys(internal, IdOf));
  }

  /**
    Quantities are equal and, where not zero, average prices within tolerance; no open position is missing at the
    broker; and the broker holds nothing unknown.
  */
  predicate Agree(ours: map<string, InternalRow>, theirs: map<string, ExternalRow>) {
    && (forall id | id in ours && id in theirs ::
         && ours[id].quantity == theirs[id].quantity
         && (ours[id].quantity != 0 ==> Distance(ours[id].averagePrice, theirs[id].averagePrice) <= AMOUNT_TOLERANCE))
    && (forall id | id in ours && id !in theirs :: !ours[id].isOpen)
    && (forall id | id in theirs && id !in ours :: theirs[id].quantity == 0)
  }

  lemma AgreeIfNothingFound(ours: map<string, InternalRow>, theirs: map<string, ExternalRow>)
    requires forall r :: !Disagrees(ours, theirs, r)
    ensures Agree(ours, theirs)
  {
    hide Distance;
    forall id | id in ours && id in theirs
      ensures ours[id].quantity == theirs[id].quantity
      ensures ours[id].quantity != 0 ==> Distance(ours[id].averagePrice, theirs[id].averagePrice) <= AMOUNT_TOLERANCE
    {
      assert !Disagrees(ours, theirs,
          Block(id, QuantityMismatch, Distance(ours[id].quantity as real, theirs[id].quantity as real)));
      assert !Disagrees(ours, theirs,
          Block(id, PriceMismatch, Distance(ours[id].averagePrice, theirs[id].averagePrice)));
    }
    forall id | id in ours && id !in theirs ensures !ours[id].isOpen {
      assert !Disagrees(ours, theirs, Block(id, MissingOnBroker, 0.0));
    }
    forall id | id in theirs && id !in ours ensures theirs[id].quantity == 0 {
      assert !Disagrees(ours, theirs, Block(id, BrokerOrphan, 0.0));
    }
  }

  lemma FindingMeansDisagreement(ours: map<string, InternalRow>, theirs: map<string, ExternalRow>, r: ReconResult)
    requires Disagrees(ours, theirs, r)
    ensures !Agree(ours, theirs)
  {
  }

  lemma HealthOfBlocks(findings: seq<ReconResult>)
    requires forall i | 0 <= i < |findings| :: findings[i].Mismatched? && findings[i].shouldBlock
    ensures HealthIs(if findings == [] then [Matched] else findings) == if findings == [] then HEALTHY else BLOCKED
  {
    if findings != [] { assert findings[0] in findings; }
  }

  /** Health is HEALTHY exactly when the two sides agree, and BLOCKED, never merely DEGRADED, when they do not. */
  lemma HealthyIff(internal: seq<InternalRow>, broker: seq<ExternalRow>)
    ensures HealthIs(Report(internal, broker))
         == if Agree(Dict(internal, IdOf), Dict(broker, BrokerIdOf)) then HEALTHY else BLOCKED
  {
    var ours, theirs := Dict(internal, IdOf), Dict(broker, BrokerIdOf);
    var findings := Findings(internal, broker);
    forall r ensures r in findings <==> Disagrees(ours, theirs, r) { ReportIsExact(internal, broker, r); }
    hide Findings, Dict, Agree, HealthIs;
    if findings == [] {
      AgreeIfNothingFound(ours, theirs);
      HealthOfBlocks([]);
    } else {
      assert findings[0] in findings;
      FindingMeansDisagreement(ours, theirs, findings[0]);
      forall i | 0 <= i < |findings|
        ensures findings[i].Mismatched? && findings[i].shouldBlock
      {
        assert findings[i] in findings;
      }
      HealthOfBlocks(findings);
    }
  }

  /**
    Openness is not compared: a position closed here that the broker still holds in equal quantity counts as
    agreement.
  */
  lemma ClosedButHeldIsHealthy(id: string, quantity: int, price: real)
    ensures var internal, broker := [InternalRow(id, quantity, price, false)], [ExternalRow(id, quantity, price)];
            HealthIs(Report(internal, broker)) == HEALTHY
  {
    var internal, broker := [InternalRow(id, quantity, price, false)], [ExternalRow(id, quantity, price)];
    DictFinds(internal, IdOf);
    DictFinds(broker, BrokerIdOf);
    KeysOfOneKey(internal, IdOf, id);
    KeysOfOneKey(broker, BrokerIdOf, id);
    HealthyIff(internal, broker);
  }

  // ---------------------------------------------------------------- after a synchronisation

  /** The account's positions, in any order, as the comparison reads them. */
  ghost predicate Lists(internal: seq<InternalRow>, book: Book, account: string) {
    && (forall i | 0 <= i < |internal| ::
         var k := Key(account, internal[i].id);
         k in book && internal[i]
           == InternalRow(internal[i].id, book[k].quantity, book[k].averageEntry, book[k].isOpen))
    && (forall k | k in book && k.account == account ::
          exists i :: 0 <= i < |internal| && internal[i].id == k.positionId)
  }

  predicate WellFormed(rows: seq<BrokerRow>) {
    DistinctIds(rows) && forall i | 0 <= i < |rows| :: rows[i].quantity.Some? && rows[i].averagePrice.Some?
  }

  /** The broker's list as the comparison reads it. */
  function AsExternal(rows: seq<BrokerRow>): seq<ExternalRow>
    requires WellFormed(rows)
  {
    seq(|rows|, i requires 0 <= i < |rows| =>
      ExternalRow(rows[i].positionId, rows[i].quantity.value, rows[i].averagePrice.value))
  }

  lemma ExternalOf(rows: seq<BrokerRow>, id: string)
    requires WellFormed(rows)
    ensures var theirs := Dict(AsExternal(rows), BrokerIdOf);
            match RowOf(rows, id)
            case Some(row) =>
              && row.quantity.Some? && row.averagePrice.Some?
              && id in theirs && theirs[id] == ExternalRow(id, row.quantity.value, row.averagePrice.value)
            case None => id !in theirs
  {
    RowOfFinds(rows, id);
    var external := AsExternal(rows);
    DictFinds(external, BrokerIdOf);
    if RowOf(rows, id).Some? {
      var i :| 0 <= i < |rows| && rows[i] == RowOf(rows, id).value;
      DictOfDistinct(external, BrokerIdOf, i);
    } else {
      forall i | 0 <= i < |external| ensures external[i].id != id { assert rows[i] in rows; }
    }
  }

  lemma InternalOf(internal: seq<InternalRow>, book: Book, account: string, id: string)
    requires Lists(internal, book, account)
    ensures var ours, k := Dict(internal, IdOf), Key(account, id);
            && (id in ours <==> k in book)
            && (id in ours ==> ours[id] == InternalRow(id, book[k].quantity, book[k].averageEntry, book[k].isOpen))
  {
    var ours, k := Dict(internal, IdOf), Key(account, id);
    DictFinds(internal, IdOf);
    if id in ours {
      var i :| 0 <= i < |internal| && internal[i] == ours[id];
    }
    if k in book {
      var i :| 0 <= i < |internal| && internal[i].id == id;
      KeysAreKeys(internal, IdOf);
      assert internal[i] in internal;
    }
  }

  /**
    Reconciling right after a synchronisation from the same list, with distinct and complete broker rows, reports
    exactly the account's open positions that the broker's list does not have.
  */
  lemma SyncThenReconcile(before: Book, account: string, rows: seq<BrokerRow>, internal: seq<InternalRow>,
      r: ReconResult)
    requires WellFormed(rows) && Lists(internal, Synced(before, account, rows), account)
    ensures r in Findings(internal, AsExternal(rows)) <==>
              && r.Mismatched? && r == Block(r.id, MissingOnBroker, 0.0)
              && RowOf(rows, r.id).None? && Key(account, r.id) in before && before[Key(account, r.id)].isOpen
  {
    var synced, external := Synced(before, account, rows), AsExternal(rows);
    ReportIsExact(internal, external, r);
    if r.Mismatched? {
      InternalOf(internal, synced, account, r.id);
      ExternalOf(rows, r.id);
      SyncIsPointwise(before, account, rows, Key(account, r.id));
    }
    hide Findings, Dict, AsExternal, Synced, Lists, WellFormed, RowOf;
  }

  /** So right after a synchronisation health is HEALTHY exactly when the broker's list has every open position. */
  lemma HealthAfterSync(before: Book, account: string, rows: seq<BrokerRow>, internal: seq<InternalRow>)
    requires WellFormed(rows) && Lists(internal, Synced(before, account, rows), account)
    ensures HealthIs(Report(internal, AsExternal(rows)))
         == if forall k | k in before && k.account == account && before[k].isOpen :: RowOf(rows, k.positionId).Some?
            then HEALTHY else BLOCKED
  {
    var findings := Findings(internal, AsExternal(rows));
    forall r ensures r in findings <==>
        && r.Mismatched? && r == Block(r.id, MissingOnBroker, 0.0)
        && RowOf(rows, r.id).None? && Key(account, r.id) in before && before[Key(account, r.id)].isOpen
    {
      SyncThenReconcile(before, account, rows, internal, r);
    }
    hide Findings, AsExternal, Synced, Lists, WellFormed, RowOf, HealthIs;
    forall i | 0 <= i < |findings|
      ensures findings[i].Mismatched? && findings[i].shouldBlock
    {
      assert findings[i] in findings;
    }
    HealthOfBlocks(findings);
    if findings == [] {
      forall k | k in before && k.account == account && before[k].isOpen ensures RowOf(rows, k.positionId).Some? {
        assert Block(k.positionId, MissingOnBroker, 0.0) !in findings;
        assert k == Key(account, k.positionId);
      }
    } else {
      assert findings[0] in findings;
    }
  }
}
