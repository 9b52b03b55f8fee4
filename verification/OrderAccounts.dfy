/**
  Whose order `create_intent` answers with.  A client order id is filed under its account's key and under a bare alias,
  and the alias answers every account that asks for the id.
*/
module OrderAccounts {
  import opened Text
  import opened OrderLifecycle
  import opened OrderRegistry
  import opened OrderRuns
  import opened OrderForgetting

  /** The record `create_intent` would answer with, if it finds one. */
  ghost function Found(s: Sys, capacity: nat, account: string, cid: Uuid): Option<nat> {
    Lookup(RegPruned(s, capacity), account, cid)
  }

  /** The answer is an order of another account. */
  ghost predicate Borrows(s: Sys, capacity: nat, account: string, cid: Uuid) {
    var l := Found(s, capacity, account, cid);
    l.Some? && l.value < |s.recs| && s.recs[l.value].account != account
  }

  /**
    The answer is the record one of the two keys leads to, if that key outlives the pruning: the account's own first.
  */
  lemma FoundIs(s: Sys, capacity: nat, account: string, cid: Uuid)
    requires FiledRight(s)
    ensures var key := Key(account, cid);
            Found(s, capacity, account, cid)
            == if Survives(s, capacity, key) then Some(s.reg.at[key])
               else if Survives(s, capacity, cid) then Some(s.reg.at[cid])
               else None
    ensures Found(s, capacity, account, cid).Some? ==>
              && Found(s, capacity, account, cid).value < |s.recs|
              && s.recs[Found(s, capacity, account, cid).value].cid == cid
  {
    SurvivesIff(s, capacity, Key(account, cid));
    SurvivesIff(s, capacity, cid);
    PrunedKeeps(s.reg, StatusMap(s), capacity);
    hide Survives, Key, Encodes, Pruned;
    if Found(s, capacity, account, cid).Some? { FoundHasId(s, RegPruned(s, capacity), account, cid); }
  }

  /**
    While ids are unique, an account is answered with another's order exactly when the id is known under another
    account and one of the two keys outlives the pruning.
  */
  lemma BorrowsIff(s: Sys, capacity: nat, account: string, cid: Uuid)
    requires FiledRight(s) && UniqueIds(s)
    ensures Borrows(s, capacity, account, cid) <==>
              && (Survives(s, capacity, Key(account, cid)) || Survives(s, capacity, cid))
              && exists r :: 0 <= r < |s.recs| && s.recs[r].cid == cid && s.recs[r].account != account
  {
    FoundIs(s, capacity, account, cid);
    hide Survives, Key, Found, FiledRight;
  }

  // ---------------------------------------------------------------- over whole runs

  /** Every `create_intent` of the run answers with an order of the account that asks. */
  ghost predicate AnswersOwn(s: Sys, steps: seq<Step>, capacity: nat)
    requires Runs(s, steps, capacity)
    decreases |steps|
  {
    steps != [] ==>
      && (steps[0].Create? ==> !Borrows(s, capacity, steps[0].account, steps[0].cid))
      && AnswersOwn(Next(s, steps[0], capacity), steps[1..], capacity)
  }

  /** The account agrees with every order of that id there is. */
  ghost predicate Owns(s: Sys, account: string, cid: Uuid) {
    forall r | 0 <= r < |s.recs| && s.recs[r].cid == cid :: s.recs[r].account == account
  }

  /** Each id is asked for by one account only: that of the orders there are, and one and the same throughout. */
  ghost predicate OneAccountPerId(s: Sys, steps: seq<Step>) {
    && (forall i | 0 <= i < |steps| && steps[i].Create? :: Owns(s, steps[i].account, steps[i].cid))
    && (forall i, j | 0 <= i < j < |steps| && steps[i].Create? && steps[j].Create? && steps[i].cid == steps[j].cid ::
          steps[i].account == steps[j].account)
  }

  /** A creation that answers with the asker's order leaves exactly one more id taken, by the asker. */
  lemma OwnershipAfter(s: Sys, step: Step, capacity: nat, account: string, cid: Uuid)
    requires FiledRight(s) && UniqueIds(s) && Enabled(s, step) && !Forgets(s, step, capacity)
    requires step.Create? ==> Owns(s, step.account, step.cid)
    ensures Owns(Next(s, step, capacity), account, cid) <==>
              Owns(s, account, cid) && (step.Create? && step.cid == cid ==> step.account == account)
  {
    IdentityStep(s, step, capacity);
    if step.Create? {
      CreateStep(s, step, capacity);
      FoundIs(s, capacity, step.account, step.cid);
      hide Next, Survives, Key, RegPruned, Lookup, FiledRight, UniqueIds;
      var t := Next(s, step, capacity);
      if |t.recs| > |s.recs| {
        assert t.recs[|s.recs|].cid == step.cid && t.recs[|s.recs|].account == step.account;
      }
      forall r | 0 <= r < |s.recs| ensures t.recs[r].cid == s.recs[r].cid && t.recs[r].account == s.recs[r].account {}
    } else {
      hide Next;
    }
  }

  /** One step of the equivalence below. */
  lemma OneAccountStep(s: Sys, steps: seq<Step>, capacity: nat)
    requires FiledRight(s) && UniqueIds(s) && steps != [] && Enabled(s, steps[0]) && !Forgets(s, steps[0], capacity)
    requires steps[0].Create? ==> Owns(s, steps[0].account, steps[0].cid)
    ensures OneAccountPerId(s, steps) <==> OneAccountPerId(Next(s, steps[0], capacity), steps[1..])
  {
    var t, rest, first := Next(s, steps[0], capacity), steps[1..], steps[0];
    forall account, cid ensures Owns(t, account, cid) <==>
        Owns(s, account, cid) && (first.Create? && first.cid == cid ==> first.account == account)
    {
      OwnershipAfter(s, first, capacity, account, cid);
    }
    hide Next, Owns, FiledRight, UniqueIds, Forgets, Enabled;
    assert steps == [first] + rest;
    if OneAccountPerId(s, steps) {
      forall i | 0 <= i < |rest| && rest[i].Create? ensures Owns(t, rest[i].account, rest[i].cid) {
        assert rest[i] == steps[i + 1];
      }
    }
    if OneAccountPerId(t, rest) {
      forall i | 0 <= i < |steps| && steps[i].Create? ensures Owns(s, steps[i].account, steps[i].cid) {
        if i > 0 { assert steps[i] == rest[i - 1]; }
      }
      forall i, j | 0 <= i < j < |steps| && steps[i].Create? && steps[j].Create? && steps[i].cid == steps[j].cid
        ensures steps[i].account == steps[j].account
      {
        assert steps[j] == rest[j - 1];
        if i > 0 { assert steps[i] == rest[i - 1]; }
      }
    }
  }

  lemma {:induction false} AnswersOwnFrom(s: Sys, steps: seq<Step>, capacity: nat)
    requires FiledRight(s) && UniqueIds(s) && Runs(s, steps, capacity) && Remembering(s, steps, capacity)
    ensures AnswersOwn(s, steps, capacity) <==> OneAccountPerId(s, steps)
    decreases |steps|
  {
    if steps == [] {
    } else {
      var first, t := steps[0], Next(s, steps[0], capacity);
      FiledRightStep(s, first, capacity);
      StepKeepsIdsUniqueIff(s, first, capacity);
      if first.Create? {
        BorrowsIff(s, capacity, first.account, first.cid);
        assert Borrows(s, capacity, first.account, first.cid) <==> !Owns(s, first.account, first.cid);
      }
      hide Next, Enabled, FiledRight, UniqueIds, Borrows, Owns, Forgets, Survives;
      if first.Create? && Borrows(s, capacity, first.account, first.cid) {
        assert steps[0].Create?;
      } else {
        OneAccountStep(s, steps, capacity);
        AnswersOwnFrom(t, steps[1..], capacity);
      }
    }
  }

  /**
    On every run that forgets no order, for every capacity: every `create_intent` answers with an order of the account
    that asks if and only if no client order id is asked for by two accounts.
  */
  lemma IdempotentPerAccountIff(steps: seq<Step>, capacity: nat)
    requires Runs(INIT, steps, capacity) && Remembering(INIT, steps, capacity)
    ensures AnswersOwn(INIT, steps, capacity) <==>
              forall i, j | 0 <= i < j < |steps| && steps[i].Create? && steps[j].Create?
                  && steps[i].cid == steps[j].cid ::
                steps[i].account == steps[j].account
  {
    AnswersOwnFrom(INIT, steps, capacity);
  }

  const FIRST_ASKS := Create("a", "id", 1, None)
  const SECOND_ASKS := Create("b", "id", 2, None)
  const FIRST_ORDER := NewOrder("a", "id", 1, None)

  function FirstFiled(): Registry<nat> { Registry([Key("a", "id"), "id"], map[Key("a", "id") := 0, "id" := 0]) }

  lemma FirstIsFiled(capacity: nat)
    ensures Enabled(INIT, FIRST_ASKS)
        && Next(INIT, FIRST_ASKS, capacity) == Sys([FIRST_ORDER], FirstFiled(), [], map[], {})
  {
    assert Key("a", "id")[1] == ':' && Key("a", "id") != "id";
    assert StatusMap(INIT) == map[];
    assert RegPruned(INIT, capacity) == Registry([], map[]);
    CreateStep(INIT, FIRST_ASKS, capacity);
    hide RegPruned, Key;
    assert [] + [Key("a", "id")] + ["id"] == [Key("a", "id"), "id"];
  }

  /** A live order is not pruned, however small the capacity. */
  lemma SecondIsAnswered(s: Sys, capacity: nat)
    requires s == Sys([FIRST_ORDER], FirstFiled(), [], map[], {})
    ensures Enabled(s, SECOND_ASKS)
    ensures var t := Next(s, SECOND_ASKS, capacity);
            t.recs == s.recs && Key("b", "id") in t.reg.at && t.reg.at[Key("b", "id")] == 0
  {
    PrunedKeeps(s.reg, StatusMap(s), capacity);
    assert Key("b", "id")[0] != Key("a", "id")[0] && Key("b", "id")[1] == ':' && "id"[1] != ':';
    CreateStep(s, SECOND_ASKS, capacity);
    hide Pruned, Key;
  }

  /** Two accounts ask for one id: the second is answered with the first one's order, filed under its own key too. */
  lemma SecondAccountGetsTheFirstsOrder(capacity: nat)
    ensures Runs(INIT, [FIRST_ASKS, SECOND_ASKS], capacity)
    ensures var s := End(INIT, [FIRST_ASKS, SECOND_ASKS], capacity);
            s.recs == [FIRST_ORDER] && Key("b", "id") in s.reg.at && s.reg.at[Key("b", "id")] == 0
  {
    FirstIsFiled(capacity);
    var s := Sys([FIRST_ORDER], FirstFiled(), [], map[], {});
    SecondIsAnswered(s, capacity);
    var t := Next(s, SECOND_ASKS, capacity);
    hide Next, Enabled, Runs, End, FirstFiled, Key;
    RunNil(t, capacity);
    var later := RunCons(s, SECOND_ASKS, t, [], capacity);
    var steps := RunCons(INIT, FIRST_ASKS, s, later, capacity);
    assert steps == [FIRST_ASKS, SECOND_ASKS];
  }
}
