/**
  Capital reservation of `capital.py`: transactions that lock the account's config row, read the two
  sums in separate statements, validate, insert and commit, interleaved with releases and consumptions
  that take no lock.  Nothing in the program writes the positions table that `capital.py` sums: whoever
  does is assumed here, opening and closing positions at any time (`Open`, `Close`), or opening one in the
  commit that consumes its reservation (`Settle`).  Amounts are in the smallest currency unit.
*/
module CapitalLedger {
  import opened Text

  datatype RowStatus = Reserved | Released | Consumed
  datatype Row = Row(amount: nat, status: RowStatus)
  datatype Position = Position(margin: nat, isOpen: bool)

  /** The account's committed rows; a reservation's id is its index. */
  datatype Account = Account(limit: int, maxPerTrade: Option<int>, positions: seq<Position>, rows: seq<Row>)

  function ReservedSum(rows: seq<Row>): nat {
    if rows == [] then 0 else (if rows[0].status.Reserved? then rows[0].amount else 0) + ReservedSum(rows[1..])
  }

  function DeployedSum(positions: seq<Position>): nat {
    if positions == [] then 0
    else (if positions[0].isOpen then positions[0].margin else 0) + DeployedSum(positions[1..])
  }

  /** Committed reservations plus deployed margin. */
  function Committed(a: Account): nat { DeployedSum(a.positions) + ReservedSum(a.rows) }

  datatype Verdict = Approved | InvalidAmount | InsufficientCapital | ExceedsMaxPerTrade

  /** The checks of `reserve`, on the values it has read. */
  function Judge(amount: int, limit: int, maxPerTrade: Option<int>, deployed: int, reserved: int): Verdict {
    if amount <= 0 then InvalidAmount
    else if amount > limit - deployed - reserved then InsufficientCapital
    else if maxPerTrade.Some? && maxPerTrade.value != 0 && amount > maxPerTrade.value then ExceedsMaxPerTrade
    else Approved
  }

  /** A cap per trade of zero is none. */
  predicate AboveCap(a: Account, amount: int) {
    a.maxPerTrade.Some? && a.maxPerTrade.value != 0 && amount > a.maxPerTrade.value
  }

  /** Which verdict is given, check by check in the order of the code. */
  lemma JudgeIff(a: Account, amount: int, deployed: int, reserved: int)
    ensures var verdict := Judge(amount, a.limit, a.maxPerTrade, deployed, reserved);
            && (verdict.InvalidAmount? <==> amount <= 0)
            && (verdict.InsufficientCapital? <==> 0 < amount && deployed + reserved + amount > a.limit)
            && (verdict.ExceedsMaxPerTrade? <==>
                  0 < amount && deployed + reserved + amount <= a.limit && AboveCap(a, amount))
            && (verdict.Approved? <==>
                  0 < amount && deployed + reserved + amount <= a.limit && !AboveCap(a, amount))
  {
  }

  function WithRow(a: Account, amount: nat): Account { a.(rows := a.rows + [Row(amount, Reserved)]) }

  predicate IsReserved(a: Account, id: nat) { id < |a.rows| && a.rows[id].status.Reserved? }

  function Restatus(a: Account, id: nat, status: RowStatus): Account
    requires id < |a.rows|
  {
    a.(rows := a.rows[id := a.rows[id].(status := status)])
  }

  /** 3000 currency units, in the smallest one. */
  const DEFAULT_LIMIT := 300000

  datatype Snapshot = Snapshot(limit: int, deployed: int, reserved: int, available: int, utilizationPct: real)

  /** The capital engine over its tables, one call at a time. */
  class CapitalEngine {
    var account: Account

    constructor (limit: int, maxPerTrade: Option<int>)
      ensures account == Account(limit, maxPerTrade, [], [])
    {
      account := Account(limit, maxPerTrade, [], []);
    }

    method SumReserved() returns (sum: nat)
      ensures sum == ReservedSum(account.rows)
    {
      sum := 0;
      assert account.rows[0..] == account.rows;
      for i := 0 to |account.rows|
        invariant sum + ReservedSum(account.rows[i..]) == ReservedSum(account.rows)
      {
        assert account.rows[i..][1..] == account.rows[i + 1..];
        if account.rows[i].status.Reserved? { sum := sum + account.rows[i].amount; }
      }
    }

    method SumDeployed() returns (sum: nat)
      ensures sum == DeployedSum(account.positions)
    {
      sum := 0;
      assert account.positions[0..] == account.positions;
      for i := 0 to |account.positions|
        invariant sum + DeployedSum(account.positions[i..]) == DeployedSum(account.positions)
      {
        assert account.positions[i..][1..] == account.positions[i + 1..];
        if account.positions[i].isOpen { sum := sum + account.positions[i].margin; }
      }
    }

    /** `configured` says whether the account has a configuration row; a default limit stands in for a missing one. */
    method GetSnapshot(configured: bool) returns (s: Snapshot)
      ensures s.limit == if configured then account.limit else 300000
      ensures s.deployed == DeployedSum(account.positions) && s.reserved == ReservedSum(account.rows)
      ensures s.deployed + s.reserved == Committed(account)
      ensures s.available == if Committed(account) <= s.limit then s.limit - Committed(account) else 0
      ensures if s.limit > 0 then s.utilizationPct * s.limit as real == Committed(account) as real * 100.0
              else s.utilizationPct == 0.0
    {
      var deployed := SumDeployed();
      var reserved := SumReserved();
      var limit := if configured then account.limit else DEFAULT_LIMIT;
      var available := limit - deployed - reserved;
      if available < 0 { available := 0; }
      var utilization := if limit > 0 then (deployed + reserved) as real / limit as real * 100.0 else 0.0;
      s := Snapshot(limit, deployed, reserved, available, utilization);
    }

    /** `reserve` with no other transaction in between. */
    method Reserve(amount: int) returns (verdict: Verdict, id: nat)
      modifies this
      ensures verdict == Judge(amount, account.limit, account.maxPerTrade,
                               DeployedSum(old(account.positions)), ReservedSum(old(account.rows)))
      ensures account == if verdict.Approved? then WithRow(old(account), amount) else old(account)
      ensures verdict.Approved? <==>
                0 < amount && Committed(old(account)) + amount <= account.limit && !AboveCap(old(account), amount)
      ensures verdict.InvalidAmount? <==> amount <= 0
      ensures verdict.InsufficientCapital? <==> 0 < amount && Committed(old(account)) + amount > account.limit
      ensures verdict.ExceedsMaxPerTrade? <==>
                0 < amount && Committed(old(account)) + amount <= account.limit && AboveCap(old(account), amount)
      ensures Committed(account) == Committed(old(account)) + if verdict.Approved? then amount else 0
      ensures verdict.Approved? ==>
          !IsReserved(old(account), id) && IsReserved(account, id) && Committed(account) <= account.limit
    {
      id := |account.rows|;
      if amount <= 0 { return InvalidAmount, id; }
      var deployed := SumDeployed();
      var reserved := SumReserved();
      if amount > account.limit - deployed - reserved { return InsufficientCapital, id; }
      if account.maxPerTrade.Some? && account.maxPerTrade.value != 0 && amount > account.maxPerTrade.value {
        return ExceedsMaxPerTrade, id;
      }
      ReservedSnoc(account.rows, Row(amount, Reserved));
      account := WithRow(account, amount);
      verdict := Approved;
    }

    /** A released reservation gives its amount back, once. */
    method Release(id: nat) returns (ok: bool)
      modifies this
      ensures ok == IsReserved(old(account), id)
      ensures account == if ok then Restatus(old(account), id, Released) else old(account)
      ensures Committed(account) == Committed(old(account)) - if ok then old(account).rows[id].amount else 0
    {
      if id >= |account.rows| || !account.rows[id].status.Reserved? { return false; }
      ReservedUpdate(account.rows, id, Released);
      account := Restatus(account, id, Released);
      ok := true;
    }

    method Consume(id: nat) returns (ok: bool)
      modifies this
      ensures ok == IsReserved(old(account), id)
      ensures account == if ok then Restatus(old(account), id, Consumed) else old(account)
      ensures Committed(account) == Committed(old(account)) - if ok then old(account).rows[id].amount else 0
    {
      if id >= |account.rows| || !account.rows[id].status.Reserved? { return false; }
      ReservedUpdate(account.rows, id, Consumed);
      account := Restatus(account, id, Consumed);
      ok := true;
    }
  }

  lemma {:induction false} ReservedSnoc(rows: seq<Row>, row: Row)
    ensures ReservedSum(rows + [row]) == ReservedSum(rows) + if row.status.Reserved? then row.amount else 0
    decreases |rows|
  {
    if rows == [] { assert ([] + [row])[1..] == []; }
    else {
      assert (rows + [row])[1..] == rows[1..] + [row];
      ReservedSnoc(rows[1..], row);
    }
  }

  lemma {:induction false} ReservedUpdate(rows: seq<Row>, id: nat, status: RowStatus)
    requires id < |rows| && rows[id].status.Reserved? && !status.Reserved?
    ensures ReservedSum(rows[id := rows[id].(status := status)]) == ReservedSum(rows) - rows[id].amount
    decreases |rows|
  {
    var rows' := rows[id := rows[id].(status := status)];
    if id == 0 { assert rows'[1..] == rows[1..]; }
    else {
      assert rows'[1..] == rows[1..][id - 1 := rows[id].(status := status)];
      ReservedUpdate(rows[1..], id - 1, status);
    }
  }

  lemma {:induction false} DeployedSnoc(positions: seq<Position>, p: Position)
    ensures DeployedSum(positions + [p]) == DeployedSum(positions) + if p.isOpen then p.margin else 0
    decreases |positions|
  {
    if positions == [] { assert ([] + [p])[1..] == []; }
    else {
      assert (positions + [p])[1..] == positions[1..] + [p];
      DeployedSnoc(positions[1..], p);
    }
  }

  lemma {:induction false} DeployedClose(positions: seq<Position>, i: nat)
    requires i < |positions|
    ensures DeployedSum(positions[i := positions[i].(isOpen := false)])
            == DeployedSum(positions) - if positions[i].isOpen then positions[i].margin else 0
    decreases |positions|
  {
    var positions' := positions[i := positions[i].(isOpen := false)];
    if i == 0 { assert positions'[1..] == positions[1..]; }
    else {
      assert positions'[1..] == positions[1..][i - 1 := positions[i].(isOpen := false)];
      DeployedClose(positions[1..], i - 1);
    }
  }

  // ---------------------------------------------------------------- concurrent transactions

  /** Where a reserve transaction stands; from `Locked` to `Refused` it holds the row lock. */
  datatype Phase =
    | Waiting
    | Locked(limit: int, maxPerTrade: Option<int>)
    | SawDeployed(limit: int, maxPerTrade: Option<int>, deployed: int)
    | SawBoth(limit: int, maxPerTrade: Option<int>, deployed: int, reserved: int)
    | Inserted
    | Refused(verdict: Verdict)
    | Ended

  datatype Txn = Txn(amount: int, phase: Phase)

  /**
    `unseen` adds up the commitments that admitted transactions could not see, and the margin opened beyond the limit.
  */
  datatype World = World(account: Account, txns: seq<Txn>, holder: Option<nat>, unseen: nat)

  datatype Step =
    | Begin(amount: int)
    | Lock(t: nat)
    | GiveUp(t: nat)
    | ReadDeployed(t: nat)
    | ReadReserved(t: nat)
    | Decide(t: nat)
    | Commit(t: nat)
    | Rollback(t: nat)
    | ReleaseRow(id: nat)
    | ConsumeRow(id: nat)
    | Settle(id: nat)
    | Open(margin: nat)
    | Close(i: nat)
    | RaiseLimit(limit: int)

  predicate At(w: World, t: nat) { t < |w.txns| }
  predicate Holds(w: World, t: nat) { w.holder == Some(t) && At(w, t) }

  predicate Enabled(w: World, step: Step) {
    match step
    case Begin(_) => true
    case Lock(t) => At(w, t) && w.txns[t].phase.Waiting? && w.holder.None?
    case GiveUp(t) => At(w, t) && w.txns[t].phase.Waiting?
    case ReadDeployed(t) => Holds(w, t) && w.txns[t].phase.Locked?
    case ReadReserved(t) => Holds(w, t) && w.txns[t].phase.SawDeployed?
    case Decide(t) => Holds(w, t) && w.txns[t].phase.SawBoth?
    case Commit(t) => Holds(w, t) && w.txns[t].phase.Inserted?
    case Rollback(t) => Holds(w, t)
    case ReleaseRow(id) => IsReserved(w.account, id)
    case ConsumeRow(id) => IsReserved(w.account, id)
    case Settle(id) => IsReserved(w.account, id)
    case Open(_) => true
    case Close(i) => i < |w.account.positions|
    case RaiseLimit(n) => n >= w.account.limit
  }

  function InPhase(w: World, t: nat, phase: Phase): World
    requires At(w, t)
  {
    w.(txns := w.txns[t := w.txns[t].(phase := phase)])
  }

  /** The row a transaction has inserted and not yet committed. */
  function PendingAmount(w: World): int {
    if w.holder.Some? && At(w, w.holder.value) && w.txns[w.holder.value].phase.Inserted?
    then w.txns[w.holder.value].amount
    else 0
  }

  function Excess(seen: int, actual: int): nat { if actual > seen then actual - seen else 0 }

  /** Consumption that opens the position in the same commit. */
  function Settled(a: Account, id: nat): Account
    requires id < |a.rows|
  {
    Restatus(a, id, Consumed).(positions := a.positions + [Position(a.rows[id].amount, true)])
  }

  function Next(w: World, step: Step): World
    requires Enabled(w, step)
  {
    var a := w.account;
    match step
    case Begin(amount) => w.(txns := w.txns + [Txn(amount, if amount <= 0 then Ended else Waiting)])
    case Lock(t) => InPhase(w, t, Locked(a.limit, a.maxPerTrade)).(holder := Some(t))
    case GiveUp(t) => InPhase(w, t, Ended)
    case ReadDeployed(t) =>
      var p := w.txns[t].phase;
      InPhase(w, t, SawDeployed(p.limit, p.maxPerTrade, DeployedSum(a.positions)))
    case ReadReserved(t) =>
      var p := w.txns[t].phase;
      InPhase(w, t, SawBoth(p.limit, p.maxPerTrade, p.deployed, ReservedSum(a.rows)))
    case Decide(t) =>
      var p := w.txns[t].phase;
      var verdict := Judge(w.txns[t].amount, p.limit, p.maxPerTrade, p.deployed, p.reserved);
      if verdict.Approved? then
        InPhase(w, t, Inserted).(unseen := w.unseen + Excess(p.deployed + p.reserved, Committed(a)))
      else InPhase(w, t, Refused(verdict))
    case Commit(t) =>
      var n := w.txns[t].amount;
      InPhase(w, t, Ended).(holder := None, account := if n > 0 then WithRow(a, n) else a)
    case Rollback(t) => InPhase(w, t, Ended).(holder := None)
    case ReleaseRow(id) => w.(account := Restatus(a, id, Released))
    case ConsumeRow(id) => w.(account := Restatus(a, id, Consumed))
    case Settle(id) => w.(account := Settled(a, id))
    case Open(m) =>
      w.(account := a.(positions := a.positions + [Position(m, true)]),
         unseen := w.unseen + Excess(a.limit, Committed(a) + PendingAmount(w) + m))
    case Close(i) => w.(account := a.(positions := a.positions[i := a.positions[i].(isOpen := false)]))
    case RaiseLimit(n) => w.(account := a.(limit := n))
  }

  predicate Runs(w: World, steps: seq<Step>)
    decreases |steps|
  {
    steps != [] ==> Enabled(w, steps[0]) && Runs(Next(w, steps[0]), steps[1..])
  }

  function End(w: World, steps: seq<Step>): World
    requires Runs(w, steps)
    decreases |steps|
  {
    if steps == [] then w else End(Next(w, steps[0]), steps[1..])
  }

  function Start(limit: nat, maxPerTrade: Option<int>): World {
    World(Account(limit, maxPerTrade, [], []), [], None, 0)
  }

  /** Nobody but the lock holder is inside its transaction, and the holder knows no more than the current limit. */
  predicate Exclusive(w: World) {
    && (forall t | 0 <= t < |w.txns| && w.holder != Some(t) :: w.txns[t].phase.Waiting? || w.txns[t].phase.Ended?)
    && (forall t | 0 <= t < |w.txns|
        && (w.txns[t].phase.Locked? || w.txns[t].phase.SawDeployed? || w.txns[t].phase.SawBoth?) ::
          w.txns[t].phase.limit <= w.account.limit)
    && (forall t | 0 <= t < |w.txns| && !w.txns[t].phase.Ended? :: w.txns[t].amount > 0)
  }

  /** Committed, deployed and inserted amounts, against the limit and what went unseen. */
  predicate Bounded(w: World) {
    Exclusive(w) && Committed(w.account) + PendingAmount(w) <= w.account.limit + w.unseen
  }

  lemma AccountStep(w: World, step: Step)
    requires Enabled(w, step)
    ensures var a, b := w.account, Next(w, step).account;
            && (step.Commit? && w.txns[step.t].amount > 0 ==> Committed(b) == Committed(a) + w.txns[step.t].amount)
            && (step.Open? ==> Committed(b) == Committed(a) + step.margin)
            && (step.Settle? ==> Committed(b) == Committed(a) && DeployedSum(b.positions) >= DeployedSum(a.positions))
            && (!step.Commit? && !step.Open? ==> Committed(b) <= Committed(a))
            && (!step.Open? && !step.Settle? ==> DeployedSum(b.positions) <= DeployedSum(a.positions))
            && b.limit >= a.limit
  {
    var a := w.account;
    match step
    case Commit(t) => if w.txns[t].amount > 0 { ReservedSnoc(a.rows, Row(w.txns[t].amount, Reserved)); }
    case ReleaseRow(id) => ReservedUpdate(a.rows, id, Released);
    case ConsumeRow(id) => ReservedUpdate(a.rows, id, Consumed);
    case Settle(id) =>
      ReservedUpdate(a.rows, id, Consumed);
      DeployedSnoc(a.positions, Position(a.rows[id].amount, true));
    case Open(m) => DeployedSnoc(a.positions, Position(m, true));
    case Close(i) => DeployedClose(a.positions, i);
    case _ =>
  }

  lemma ExclusiveStep(w: World, step: Step)
    requires Exclusive(w) && Enabled(w, step)
    ensures Exclusive(Next(w, step))
  {
    LimitStep(w, step);
    hide ReservedSum, DeployedSum, Judge, Restatus, WithRow, Settled, Excess;
    var v := Next(w, step);
    forall t | 0 <= t < |v.txns| && v.holder != Some(t) ensures v.txns[t].phase.Waiting? || v.txns[t].phase.Ended? {
      if t < |w.txns| { assert w.holder == Some(t) || w.txns[t].phase.Waiting? || w.txns[t].phase.Ended?; }
    }
  }

  lemma LimitStep(w: World, step: Step)
    requires Enabled(w, step)
    ensures Next(w, step).account.limit >= w.account.limit
  {
    hide ReservedSum, DeployedSum, Judge;
  }

  /** An amount is pending from its insertion to its commit; a decision and an opening add what goes unseen. */
  lemma PendingStep(w: World, step: Step)
    requires Exclusive(w) && Enabled(w, step)
    ensures var v, p := Next(w, step), PendingAmount(w);
            && p >= 0 && v.unseen >= w.unseen
            && match step
               case Decide(t) =>
                 && v.account == w.account
                 && (PendingAmount(v) > 0 ==>
                       Committed(w.account) + PendingAmount(v) <= w.account.limit + v.unseen - w.unseen)
               case Open(m) =>
                 PendingAmount(v) == p && Committed(w.account) + p + m <= v.account.limit + v.unseen - w.unseen
               case Commit(t) => p == w.txns[t].amount > 0 && PendingAmount(v) == 0
               case _ => PendingAmount(v) <= p
  {
    hide ReservedSum, DeployedSum, Restatus, WithRow, Settled;
  }

  lemma BoundedStep(w: World, step: Step)
    requires Bounded(w) && Enabled(w, step)
    ensures Bounded(Next(w, step))
  {
    AccountStep(w, step);
    ExclusiveStep(w, step);
    PendingStep(w, step);
    hide Next, Enabled, Exclusive, Committed, PendingAmount;
  }

  lemma {:induction false} BoundedRun(w: World, steps: seq<Step>)
    requires Bounded(w) && Runs(w, steps)
    ensures Bounded(End(w, steps))
    decreases |steps|
  {
    hide Bounded, Next, Enabled;
    if steps == [] {
    } else {
      BoundedStep(w, steps[0]);
      BoundedRun(Next(w, steps[0]), steps[1..]);
    }
  }

  /** In every interleaving, commitments exceed the limit by no more than what admitted transactions could not see. */
  lemma OvercommitmentIsBounded(limit: nat, maxPerTrade: Option<int>, steps: seq<Step>)
    requires Runs(Start(limit, maxPerTrade), steps)
    ensures var w := End(Start(limit, maxPerTrade), steps); Committed(w.account) <= w.account.limit + w.unseen
  {
    BoundedRun(Start(limit, maxPerTrade), steps);
  }

  // ---------------------------------------------------------------- when nothing goes unseen

  /** The lock holder is between its two reads. */
  predicate InWindow(w: World) {
    w.holder.Some? && At(w, w.holder.value) && w.txns[w.holder.value].phase.SawDeployed?
  }

  /** The lock holder has made both its reads. */
  predicate Decided(w: World) {
    w.holder.Some? && At(w, w.holder.value) && w.txns[w.holder.value].phase.SawBoth?
  }

  /** Margin opened beyond the limit, or deployed beyond what the lock holder has already counted. */
  predicate Uncovers(w: World, step: Step)
    requires Enabled(w, step)
  {
    match step
    case Open(m) =>
      || Committed(w.account) + PendingAmount(w) + m > w.account.limit
      || (InWindow(w) && DeployedSum(w.account.positions) + m > w.txns[w.holder.value].phase.deployed)
      || (Decided(w) && var p := w.txns[w.holder.value].phase; Committed(w.account) + m > p.deployed + p.reserved)
    case Settle(id) =>
      InWindow(w)
      && DeployedSum(w.account.positions) + w.account.rows[id].amount > w.txns[w.holder.value].phase.deployed
    case _ => false
  }

  /** No step of the run uncovers what the lock holder has read. */
  predicate DisciplinedRun(w: World, steps: seq<Step>)
    decreases |steps|
  {
    steps != [] ==> Enabled(w, steps[0]) && !Uncovers(w, steps[0]) && DisciplinedRun(Next(w, steps[0]), steps[1..])
  }

  /** What the lock holder has read still covers what is there. */
  predicate ReadsCover(w: World) {
    && w.unseen == 0
    && (w.holder.Some? && At(w, w.holder.value) ==>
          var p := w.txns[w.holder.value].phase;
          && (p.SawDeployed? ==> DeployedSum(w.account.positions) <= p.deployed)
          && (p.SawBoth? ==> Committed(w.account) <= p.deployed + p.reserved))
  }

  /** What has been read keeps covering what is there exactly when the step does not uncover it. */
  lemma ReadsCoverIff(w: World, step: Step)
    requires Exclusive(w) && ReadsCover(w) && Enabled(w, step)
    ensures ReadsCover(Next(w, step)) <==> !Uncovers(w, step)
  {
    AccountStep(w, step);
    if step.Open? { DeployedSnoc(w.account.positions, Position(step.margin, true)); }
    if step.Settle? {
      ReservedUpdate(w.account.rows, step.id, Consumed);
      DeployedSnoc(w.account.positions, Position(w.account.rows[step.id].amount, true));
    }
    hide ReservedSum, DeployedSum, Committed;
  }

  /** With no transaction under way, opening a position is harmless exactly when its margin fits. */
  lemma OpenIsHarmlessIff(w: World, margin: nat)
    requires Exclusive(w) && ReadsCover(w) && w.holder.None?
    ensures ReadsCover(Next(w, Open(margin))) <==> Committed(w.account) + margin <= w.account.limit
  {
    ReadsCoverIff(w, Open(margin));
  }

  /**
    The most an admission on these two sums may let through: the headroom they leave, or the cap per trade below it.
  */
  function MostAdmitted(a: Account, deployed: int, reserved: int): int {
    var headroom := a.limit - deployed - reserved;
    if a.maxPerTrade.Some? && a.maxPerTrade.value != 0 && a.maxPerTrade.value < headroom then a.maxPerTrade.value
    else headroom
  }

  /**
    An admission is safe for every amount it may let through exactly when the most it may let through is nothing or
    fits; without a cap in the way, exactly when what was read covers what is there.
  */
  lemma AdmissionIsSafeIff(a: Account, deployed: nat, reserved: nat)
    ensures var safe := forall amount ::
                          Judge(amount, a.limit, a.maxPerTrade, deployed, reserved).Approved? ==>
                            Committed(a) + amount <= a.limit;
            var most := MostAdmitted(a, deployed, reserved);
            && (safe <==> most <= 0 || Committed(a) + most <= a.limit)
            && (0 < most == a.limit - deployed - reserved ==> (safe <==> Committed(a) <= deployed + reserved))
  {
    var most := MostAdmitted(a, deployed, reserved);
    hide Committed;
    JudgeIff(a, most, deployed, reserved);
    forall amount | Judge(amount, a.limit, a.maxPerTrade, deployed, reserved).Approved? ensures 0 < amount <= most {
      JudgeIff(a, amount, deployed, reserved);
    }
  }

  lemma {:induction false} ReadsCoverRun(w: World, steps: seq<Step>)
    requires Bounded(w) && ReadsCover(w) && DisciplinedRun(w, steps)
    ensures Runs(w, steps) && Bounded(End(w, steps)) && ReadsCover(End(w, steps))
    decreases |steps|
  {
    hide ReadsCover, Next, Enabled, Uncovers, Exclusive;
    if steps == [] {
    } else {
      BoundedStep(w, steps[0]);
      ReadsCoverIff(w, steps[0]);
      ReadsCoverRun(Next(w, steps[0]), steps[1..]);
    }
  }

  /** In every disciplined interleaving of any number of transactions, commitments never exceed the limit. */
  lemma NeverOvercommitted(limit: nat, maxPerTrade: Option<int>, steps: seq<Step>)
    requires DisciplinedRun(Start(limit, maxPerTrade), steps)
    ensures Runs(Start(limit, maxPerTrade), steps)
    ensures var a := End(Start(limit, maxPerTrade), steps).account; Committed(a) <= a.limit
  {
    ReadsCoverRun(Start(limit, maxPerTrade), steps);
  }

  lemma RunNil(w: World)
    ensures Runs(w, []) && End(w, []) == w
  {}

  lemma RunCons(w: World, step: Step, later: seq<Step>) returns (steps: seq<Step>)
    requires Enabled(w, step) && Runs(Next(w, step), later)
    ensures Runs(w, steps) && End(w, steps) == End(Next(w, step), later)
  {
    steps := [step] + later;
    assert steps[1..] == later;
  }

  lemma {:induction false} RunAppend(w: World, a: seq<Step>, b: seq<Step>)
    requires Runs(w, a) && Runs(End(w, a), b)
    ensures Runs(w, a + b) && End(w, a + b) == End(End(w, a), b)
    decreases |a|
  {
    hide Next, Enabled;
    if a == [] { assert a + b == b; }
    else {
      assert (a + b)[1..] == a[1..] + b;
      RunAppend(Next(w, a[0]), a[1..], b);
    }
  }

  /** A reserve transaction no step interrupts has the verdict and the effect of `Reserve`, and misses nothing. */
  lemma AloneIsReserve(w: World, amount: int) returns (steps: seq<Step>)
    requires w.holder.None?
    ensures Runs(w, steps)
    ensures var v, a := End(w, steps), w.account;
            var verdict := Judge(amount, a.limit, a.maxPerTrade, DeployedSum(a.positions), ReservedSum(a.rows));
            && v.account == (if verdict.Approved? then WithRow(a, amount) else a)
            && v.holder.None? && |v.txns| == |w.txns| + 1 && v.unseen == w.unseen
  {
    var t := |w.txns|;
    var w1 := Next(w, Begin(amount));
    if amount <= 0 {
      RunNil(w1);
      steps := RunCons(w, Begin(amount), []);
    } else {
      var w2 := Next(w1, Lock(t));
      var w3 := Next(w2, ReadDeployed(t));
      var w4 := Next(w3, ReadReserved(t));
      var w5 := Next(w4, Decide(t));
      var last := if w5.txns[t].phase.Inserted? then Commit(t) else Rollback(t);
      var w6 := Next(w5, last);
      hide Next, Enabled, Runs, End;
      RunNil(w6);
      steps := RunCons(w5, last, []);
      steps := RunCons(w4, Decide(t), steps);
      steps := RunCons(w3, ReadReserved(t), steps);
      steps := RunCons(w2, ReadDeployed(t), steps);
      steps := RunCons(w1, Lock(t), steps);
      steps := RunCons(w, Begin(amount), steps);
    }
  }

  /** The first reservation may take the whole limit. */
  lemma TakeWholeLimit(limit: nat) returns (steps: seq<Step>)
    requires limit > 0
    ensures Runs(Start(limit, None), steps)
    ensures var w := End(Start(limit, None), steps);
            && w.account == Account(limit, None, [], [Row(limit, Reserved)]) && w.holder.None? && w.unseen == 0
                && |w.txns| == 1
  {
    steps := AloneIsReserve(Start(limit, None), limit);
  }

  /**
    The discipline is needed, and the bound is tight: a reservation settled between the two reads of a
    second transaction is seen by neither, and twice the limit is committed.
  */
  lemma SettlingInTheWindowOvercommits(limit: nat) returns (steps: seq<Step>)
    requires limit > 0
    ensures Runs(Start(limit, None), steps)
    ensures var w := End(Start(limit, None), steps);
            w.account.limit == limit && w.unseen == limit && Committed(w.account) == limit + w.unseen
  {
    var first := TakeWholeLimit(limit);
    var w := End(Start(limit, None), first);
    assert w.account.rows[1..] == [];
    var w1 := Next(w, Begin(limit));
    var w2 := Next(w1, Lock(1));
    var w3 := Next(w2, ReadDeployed(1));
    var w4 := Next(w3, Settle(0));
    assert w4.account.rows == [Row(limit, Consumed)] && w4.account.rows[1..] == [];
    assert w4.account.positions == [Position(limit, true)] && w4.account.positions[1..] == [];
    assert DeployedSum(w2.account.positions) == 0 && ReservedSum(w4.account.rows) == 0;
    var w5 := Next(w4, ReadReserved(1));
    assert w5.txns[1].phase == SawBoth(limit, None, 0, 0);
    var w6 := Next(w5, Decide(1));
    var w7 := Next(w6, Commit(1));
    ReservedSnoc(w6.account.rows, Row(limit, Reserved));
    hide Next, Enabled, Runs, End;
    RunNil(w7);
    steps := RunCons(w6, Commit(1), []);
    steps := RunCons(w5, Decide(1), steps);
    steps := RunCons(w4, ReadReserved(1), steps);
    steps := RunCons(w3, Settle(0), steps);
    steps := RunCons(w2, ReadDeployed(1), steps);
    steps := RunCons(w1, Lock(1), steps);
    steps := RunCons(w, Begin(limit), steps);
    RunAppend(Start(limit, None), first, steps);
    steps := first + steps;
  }

  /** So does a position opened in a later commit than the consumption that pays for it. */
  lemma DeployingLateOvercommits(limit: nat) returns (steps: seq<Step>)
    requires limit > 0
    ensures Runs(Start(limit, None), steps)
    ensures var w := End(Start(limit, None), steps); w.account.limit == limit && Committed(w.account) == 2 * limit
  {
    var first := TakeWholeLimit(limit);
    var w := End(Start(limit, None), first);
    var w1 := Next(w, ConsumeRow(0));
    assert w1.account.rows == [Row(limit, Consumed)] && w1.account.rows[1..] == [];
    var again := AloneIsReserve(w1, limit);
    var w2 := End(w1, again);
    var w3 := Next(w2, Open(limit));
    ReservedSnoc(w1.account.rows, Row(limit, Reserved));
    DeployedSnoc([], Position(limit, true));
    assert w3.account.positions == [] + [Position(limit, true)];
    assert Enabled(w, ConsumeRow(0)) && Enabled(w2, Open(limit));
    hide Next, Enabled, Runs, End;
    RunNil(w3);
    steps := RunCons(w2, Open(limit), []);
    RunAppend(w1, again, steps);
    steps := RunCons(w, ConsumeRow(0), again + steps);
    RunAppend(Start(limit, None), first, steps);
    steps := first + steps;
  }
}
