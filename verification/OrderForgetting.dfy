/**
  When `create_intent` forgets an order: pruning at capacity drops its keys, and asking for its client order id again
  makes a second record, which can be sent again under the same id.
*/
module OrderForgetting {
  import opened Text
  import opened OrderLifecycle
  import opened OrderRegistry
  import opened OrderRuns

  // ---------------------------------------------------------------- exactly when an order is forgotten

  /** The keys the next pruning drops. */
  ghost function Batch(s: Sys): seq<string> { Take(TerminalKeys(s.reg.keys, StatusMap(s)), PRUNE_BATCH) }

  /** The guard of the pruning branch lets the key stand. */
  ghost predicate Survives(s: Sys, capacity: nat, k: string) {
    k in s.reg.at && !(|s.reg.at| >= capacity && k in Batch(s))
  }

  lemma SurvivesIff(s: Sys, capacity: nat, k: string)
    ensures k in RegPruned(s, capacity).at <==> Survives(s, capacity, k)
    ensures k in RegPruned(s, capacity).at ==> RegPruned(s, capacity).at[k] == s.reg.at[k]
  {
    PopAllAt(s.reg, Batch(s));
    hide TerminalKeys, Take, PopAll;
  }

  /**
    An order filed under both its keys is forgotten exactly when the registry is full and both keys are in the batch.
  */
  lemma ForgottenIff(s: Sys, capacity: nat, r: nat)
    requires r < |s.recs| && Reachable(s, r)
    ensures var o := s.recs[r];
            var dropped := |s.reg.at| >= capacity && Key(o.account, o.cid) in Batch(s) && o.cid in Batch(s);
            && (Lookup(RegPruned(s, capacity), o.account, o.cid) == Some(r) <==> !dropped)
            && forall q, p :: (|Next(s, Create(o.account, o.cid, q, p), capacity).recs| > |s.recs|) <==> dropped
  {
    var o := s.recs[r];
    SurvivesIff(s, capacity, Key(o.account, o.cid));
    SurvivesIff(s, capacity, o.cid);
    hide RegPruned, Batch, Key;
    forall q, p ensures (|Next(s, Create(o.account, o.cid, q, p), capacity).recs| > |s.recs|)
                    <==> Lookup(RegPruned(s, capacity), o.account, o.cid).None?
    {
      CreateStep(s, Create(o.account, o.cid, q, p), capacity);
    }
  }

  // ---------------------------------------------------------------- client order ids over whole runs

  ghost predicate Known(s: Sys, cid: Uuid) { exists r :: 0 <= r < |s.recs| && s.recs[r].cid == cid }

  /** The step asks for an id that is known but whose keys are gone, or go in the pruning. */
  ghost predicate Forgets(s: Sys, step: Step, capacity: nat) {
    && step.Create? && Known(s, step.cid)
    && !Survives(s, capacity, Key(step.account, step.cid)) && !Survives(s, capacity, step.cid)
  }

  ghost predicate UniqueIds(s: Sys) {
    forall i, j | 0 <= i < j < |s.recs| :: s.recs[i].cid != s.recs[j].cid
  }

  lemma StepKeepsIdsUniqueIff(s: Sys, step: Step, capacity: nat)
    requires UniqueIds(s) && Enabled(s, step)
    ensures UniqueIds(Next(s, step, capacity)) <==> !Forgets(s, step, capacity)
  {
    IdentityStep(s, step, capacity);
    if step.Create? {
      SurvivesIff(s, capacity, Key(step.account, step.cid));
      SurvivesIff(s, capacity, step.cid);
      CreateStep(s, step, capacity);
      hide Next, RegPruned, Survives, Key;
      var t := Next(s, step, capacity);
      if Known(s, step.cid) && |t.recs| > |s.recs| {
        var r :| 0 <= r < |s.recs| && s.recs[r].cid == step.cid;
        assert t.recs[r].cid == t.recs[|s.recs|].cid;
      }
    }
  }

  lemma DuplicatesStay(s: Sys, step: Step, capacity: nat)
    requires Enabled(s, step) && !UniqueIds(s)
    ensures !UniqueIds(Next(s, step, capacity))
  {
    IdentityStep(s, step, capacity);
    hide Next;
    var i, j :| 0 <= i < j < |s.recs| && s.recs[i].cid == s.recs[j].cid;
    assert Next(s, step, capacity).recs[i].cid == Next(s, step, capacity).recs[j].cid;
  }

  lemma {:induction false} DuplicatesStayOnRuns(s: Sys, steps: seq<Step>, capacity: nat)
    requires Runs(s, steps, capacity) && !UniqueIds(s)
    ensures !UniqueIds(End(s, steps, capacity))
    decreases |steps|
  {
    hide Next, Enabled, UniqueIds;
    if steps == [] {
    } else {
      DuplicatesStay(s, steps[0], capacity);
      DuplicatesStayOnRuns(Next(s, steps[0], capacity), steps[1..], capacity);
    }
  }

  /** No step of the run forgets an order. */
  ghost predicate Remembering(s: Sys, steps: seq<Step>, capacity: nat)
    requires Runs(s, steps, capacity)
    decreases |steps|
  {
    steps != [] ==> !Forgets(s, steps[0], capacity) && Remembering(Next(s, steps[0], capacity), steps[1..], capacity)
  }

  lemma {:induction false} IdsStayUniqueIff(s: Sys, steps: seq<Step>, capacity: nat)
    requires Runs(s, steps, capacity) && UniqueIds(s)
    ensures UniqueIds(End(s, steps, capacity)) <==> Remembering(s, steps, capacity)
    decreases |steps|
  {
    hide Next, Enabled, UniqueIds, Forgets;
    if steps == [] {
    } else {
      StepKeepsIdsUniqueIff(s, steps[0], capacity);
      if Forgets(s, steps[0], capacity) {
        DuplicatesStayOnRuns(Next(s, steps[0], capacity), steps[1..], capacity);
      } else {
        IdsStayUniqueIff(Next(s, steps[0], capacity), steps[1..], capacity);
      }
    }
  }

  /** On every run, for every capacity: no two records share a client order id if and only if no step forgets one. */
  lemma ClientIdsAreUniqueIff(steps: seq<Step>, capacity: nat)
    requires Runs(INIT, steps, capacity)
    ensures UniqueIds(End(INIT, steps, capacity)) <==> Remembering(INIT, steps, capacity)
  {
    IdsStayUniqueIff(INIT, steps, capacity);
  }

  /** So on a run that forgets no order, a client order id is submitted at most once. */
  lemma NoClientIdIsResent(steps: seq<Step>, capacity: nat, c: nat, d: nat)
    requires Runs(INIT, steps, capacity) && Remembering(INIT, steps, capacity)
    requires var s := End(INIT, steps, capacity);
             c < d < |s.calls| && s.calls[c].kind == Submitting && s.calls[d].kind == Submitting
    ensures var s := End(INIT, steps, capacity);
            && s.calls[c].rec < |s.recs| && s.calls[d].rec < |s.recs|
            && s.recs[s.calls[c].rec].cid != s.recs[s.calls[d].rec].cid
  {
    ClientIdsAreUniqueIff(steps, capacity);
    SentOnceRun(INIT, steps, capacity);
    var s := End(INIT, steps, capacity);
    assert !IsSubmitOf(s.calls[d], s.calls[c].rec);
  }

  // ---------------------------------------------------------------- exactly when an id is sent a second time

  ghost predicate WasSubmitted(s: Sys, q: nat) { exists c :: 0 <= c < |s.calls| && IsSubmitOf(s.calls[c], q) }

  /** A record has an attempt exactly when a call has submitted it. */
  ghost predicate Attempted(s: Sys) {
    && SentOnce(s)
    && (forall q | 0 <= q < |s.recs| :: s.recs[q].attempts > 0 <==> WasSubmitted(s, q))
  }

  lemma AttemptedStep(s: Sys, step: Step, capacity: nat)
    requires Attempted(s) && Enabled(s, step)
    ensures Attempted(Next(s, step, capacity))
  {
    SentOnceStep(s, step, capacity);
    StepFrame(s, step, capacity);
    CallFrame(s, step, capacity);
    hide Next, Enabled;
    var t := Next(s, step, capacity);
    forall q | 0 <= q < |t.recs| ensures t.recs[q].attempts > 0 <==> WasSubmitted(t, q) {
      if WasSubmitted(t, q) {
        var c :| 0 <= c < |t.calls| && IsSubmitOf(t.calls[c], q);
        if c < |s.calls| { assert IsSubmitOf(s.calls[c], q); }
      }
      if q < |s.recs| && WasSubmitted(s, q) {
        var c :| 0 <= c < |s.calls| && IsSubmitOf(s.calls[c], q);
        assert IsSubmitOf(t.calls[c], q);
      }
      if step == CallSubmit(q) { assert IsSubmitOf(t.calls[|s.calls|], q); }
    }
  }

  /** The client order id a call is about. */
  function IdOf(s: Sys, c: nat): Uuid
    requires c < |s.calls| && s.calls[c].rec < |s.recs|
  {
    s.recs[s.calls[c].rec].cid
  }

  /** No client order id has been submitted twice. */
  ghost predicate SentOnceById(s: Sys)
    requires SentOnce(s)
  {
    forall c, d | 0 <= c < d < |s.calls| && s.calls[c].kind == Submitting && s.calls[d].kind == Submitting ::
      IdOf(s, c) != IdOf(s, d)
  }

  /** What can be checked before a submission: another record with the id has had its attempt. */
  ghost predicate SendsAgain(s: Sys, step: Step)
    requires Enabled(s, step)
  {
    && step.CallSubmit?
    && exists q :: 0 <= q < |s.recs| && q != step.rec && s.recs[q].cid == s.recs[step.rec].cid && s.recs[q].attempts > 0
  }

  /** Submissions keep their ids, and only `CallSubmit` adds one, of a record not submitted before. */
  lemma IdsStand(s: Sys, step: Step, capacity: nat)
    requires SentOnce(s) && Enabled(s, step)
    ensures var t := Next(s, step, capacity);
            && SentOnce(t) && |s.calls| <= |t.calls|
            && (forall c: nat | c < |s.calls| ::
                  && t.calls[c].rec < |t.recs| && s.calls[c].rec < |s.recs|
                  && t.calls[c].kind == s.calls[c].kind && IdOf(t, c) == IdOf(s, c)
                  && (step.CallSubmit? && s.calls[c].kind == Submitting ==> s.calls[c].rec != step.rec))
            && (step.CallSubmit? ==>
                  && |t.calls| == |s.calls| + 1 && t.calls[|s.calls|].kind == Submitting
                  && t.calls[|s.calls|].rec < |t.recs| && IdOf(t, |s.calls|) == s.recs[step.rec].cid)
            && (!step.CallSubmit? ==> forall c | |s.calls| <= c < |t.calls| :: t.calls[c].kind != Submitting)
  {
    SentOnceStep(s, step, capacity);
    IdentityStep(s, step, capacity);
    CallFrame(s, step, capacity);
    assert step.CallSubmit? ==> Unsent(s.recs[step.rec].status);
    hide Next, Enabled, Unsent;
  }

  /** Another record with the id has had its attempt exactly when a submission under the id was made. */
  lemma SendsAgainMeans(s: Sys, step: Step)
    requires Attempted(s) && Enabled(s, step) && step.CallSubmit?
    requires forall c | 0 <= c < |s.calls| && s.calls[c].kind == Submitting :: s.calls[c].rec != step.rec
    ensures SendsAgain(s, step) <==>
              exists c: nat ::
                c < |s.calls| && s.calls[c].kind == Submitting && IdOf(s, c) == s.recs[step.rec].cid
  {
    if SendsAgain(s, step) {
      var q :| 0 <= q < |s.recs| && q != step.rec && s.recs[q].cid == s.recs[step.rec].cid && s.recs[q].attempts > 0;
      assert WasSubmitted(s, q);
      var c :| 0 <= c < |s.calls| && IsSubmitOf(s.calls[c], q);
      assert IdOf(s, c) == s.recs[step.rec].cid;
    }
    if c: nat :| c < |s.calls| && s.calls[c].kind == Submitting && IdOf(s, c) == s.recs[step.rec].cid {
      assert IsSubmitOf(s.calls[c], s.calls[c].rec);
      assert WasSubmitted(s, s.calls[c].rec);
    }
  }

  lemma StepKeepsSentOnceByIdIff(s: Sys, step: Step, capacity: nat)
    requires Attempted(s) && SentOnceById(s) && Enabled(s, step)
    ensures SentOnce(Next(s, step, capacity))
    ensures SentOnceById(Next(s, step, capacity)) <==> !SendsAgain(s, step)
  {
    IdsStand(s, step, capacity);
    if step.CallSubmit? { SendsAgainMeans(s, step); }
    var t, d := Next(s, step, capacity), |s.calls|;
    hide Next, Enabled, SentOnce, Attempted, IdOf;
    if step.CallSubmit? {
      hide SendsAgain;
      if SendsAgain(s, step) {
        var c: nat :| c < d && s.calls[c].kind == Submitting && IdOf(s, c) == s.recs[step.rec].cid;
        assert IdOf(t, c) == IdOf(t, d);
      } else {
        assert forall c: nat | c < d && t.calls[c].kind == Submitting :: IdOf(t, c) != IdOf(t, d);
      }
    }
  }

  lemma ResentStays(s: Sys, step: Step, capacity: nat)
    requires SentOnce(s) && !SentOnceById(s) && Enabled(s, step)
    ensures SentOnce(Next(s, step, capacity)) && !SentOnceById(Next(s, step, capacity))
  {
    SentOnceStep(s, step, capacity);
    IdentityStep(s, step, capacity);
    CallFrame(s, step, capacity);
    hide Next, Enabled;
    var t := Next(s, step, capacity);
    var c, d :| 0 <= c < d < |s.calls| && s.calls[c].kind == Submitting && s.calls[d].kind == Submitting
        && IdOf(s, c) == IdOf(s, d);
    assert IdOf(t, c) == IdOf(t, d);
  }

  lemma {:induction false} ResentStaysOnRuns(s: Sys, steps: seq<Step>, capacity: nat)
    requires SentOnce(s) && !SentOnceById(s) && Runs(s, steps, capacity)
    ensures SentOnce(End(s, steps, capacity)) && !SentOnceById(End(s, steps, capacity))
    decreases |steps|
  {
    hide SentOnce, SentOnceById, Next, Enabled;
    if steps == [] {
    } else {
      ResentStays(s, steps[0], capacity);
      ResentStaysOnRuns(Next(s, steps[0], capacity), steps[1..], capacity);
    }
  }

  /** No submission of the run sends an id again. */
  ghost predicate NeverAgain(s: Sys, steps: seq<Step>, capacity: nat)
    requires Runs(s, steps, capacity)
    decreases |steps|
  {
    steps != [] ==> !SendsAgain(s, steps[0]) && NeverAgain(Next(s, steps[0], capacity), steps[1..], capacity)
  }

  lemma {:induction false} SentOnceByIdIff(s: Sys, steps: seq<Step>, capacity: nat)
    requires Attempted(s) && SentOnceById(s) && Runs(s, steps, capacity)
    ensures SentOnce(End(s, steps, capacity))
    ensures SentOnceById(End(s, steps, capacity)) <==> NeverAgain(s, steps, capacity)
    decreases |steps|
  {
    hide SentOnceById, SendsAgain, Next, Enabled;
    if steps == [] {
    } else {
      AttemptedStep(s, steps[0], capacity);
      StepKeepsSentOnceByIdIff(s, steps[0], capacity);
      hide Attempted, SentOnce;
      if SendsAgain(s, steps[0]) {
        ResentStaysOnRuns(Next(s, steps[0], capacity), steps[1..], capacity);
      } else {
        SentOnceByIdIff(Next(s, steps[0], capacity), steps[1..], capacity);
      }
    }
  }

  /**
    On every run, for every capacity: no client order id is submitted twice if and only if no submission finds another
    record with its id that has had its attempt.
  */
  lemma ClientIdsAreSentOnceIff(steps: seq<Step>, capacity: nat)
    requires Runs(INIT, steps, capacity)
    ensures SentOnce(End(INIT, steps, capacity))
    ensures SentOnceById(End(INIT, steps, capacity)) <==> NeverAgain(INIT, steps, capacity)
  {
    SentOnceByIdIff(INIT, steps, capacity);
  }

  /** Two submissions under one client order id mean that one of the two records had ended. */
  lemma NoClientIdIsResentUnlessEnded(steps: seq<Step>, capacity: nat, c: nat, d: nat)
    requires Runs(INIT, steps, capacity)
    requires var s := End(INIT, steps, capacity);
             && c < d < |s.calls| && s.calls[c].kind == Submitting && s.calls[d].kind == Submitting
             && s.calls[c].rec < |s.recs| && s.calls[d].rec < |s.recs|
             && s.recs[s.calls[c].rec].cid == s.recs[s.calls[d].rec].cid
    ensures var s := End(INIT, steps, capacity); s.calls[c].rec in s.ended || s.calls[d].rec in s.ended
  {
    var s := End(INIT, steps, capacity);
    SentOnceRun(INIT, steps, capacity);
    assert !IsSubmitOf(s.calls[d], s.calls[c].rec);
    if s.calls[c].rec !in s.ended { RegistrySurvivesPruning(steps, capacity, s.calls[c].rec); }
  }

  // ---------------------------------------------------------------- a client order id sent twice, at every capacity

  /** The order that is cancelled while its submission is under way. */
  const FIRST := NewOrder("acct", "id", 1, None)
  const CANCELLED := FIRST.(status := Cancelled, attempts := 1)
  const IN_FLIGHT := Pending(Submitting, 0, None, true)
  const AGAIN := Create("acct", "id", 1, None)

  /** A client order id no record of fewer characters has. */
  function FillerId(n: nat): (cid: Uuid)
    ensures |cid| == n
  {
    if n == 0 then "" else FillerId(n - 1) + "x"
  }

  /** The cancelled order first, then live orders whose ids are told apart by their lengths. */
  ghost predicate Filling(s: Sys) {
    var key := Key("acct", "id");
    && |s.recs| >= 1 && s.recs[0] == CANCELLED && s.calls == [IN_FLIGHT]
    && (forall r | 1 <= r < |s.recs| :: s.recs[r].status == Created && |s.recs[r].cid| == r + 2)
    && (forall k | k in s.reg.at :: s.reg.at[k] < |s.recs| && Encodes(k, s.recs[s.reg.at[k]].cid))
    && |s.reg.keys| >= 2 && s.reg.keys[0] == key && s.reg.keys[1] == "id"
    && key in s.reg.at && "id" in s.reg.at && s.reg.at[key] == s.reg.at["id"] == 0
    && (forall i | 2 <= i < |s.reg.keys| :: s.reg.keys[i] in s.reg.at && s.reg.at[s.reg.keys[i]] >= 1)
  }

  lemma KeysDiffer()
    ensures Key("acct", "id") != "id"
  {
    assert Key("acct", "id")[4] == ':';
  }

  /** A filler's keys are not in the registry yet. */
  lemma FillerIsFresh(s: Sys, k: string, cid: Uuid)
    requires Filling(s) && |cid| == |s.recs| + 2 && Encodes(k, cid)
    ensures k !in s.reg.at
  {
    if k in s.reg.at { EncodesOne(k, cid, s.recs[s.reg.at[k]].cid); }
  }

  /** The state after one more live order is filed under two new keys. */
  function WithFiller(s: Sys, key: string, cid: Uuid): Sys {
    s.(recs := s.recs + [NewOrder("acct", cid, 1, None)],
       reg := Registry(s.reg.keys + [key] + [cid], s.reg.at[key := |s.recs|][cid := |s.recs|]))
  }

  lemma StillFilling(s: Sys, key: string, cid: Uuid)
    requires Filling(s) && |cid| == |s.recs| + 2 && Encodes(key, cid) && Encodes(cid, cid)
    requires key !in s.reg.at && cid !in s.reg.at && key != cid
    ensures Filling(WithFiller(s, key, cid)) && |WithFiller(s, key, cid).reg.at| == |s.reg.at| + 2
  {
    TwoMore(s.reg.at, key, cid, |s.recs|);
    var t := WithFiller(s, key, cid);
    hide Encodes, Key;
    forall k | k in t.reg.at ensures t.reg.at[k] < |t.recs| && Encodes(k, t.recs[t.reg.at[k]].cid) {
      if k in s.reg.at { assert Encodes(k, s.recs[s.reg.at[k]].cid); }
    }
    forall i | 2 <= i < |t.reg.keys| ensures t.reg.keys[i] in t.reg.at && t.reg.at[t.reg.keys[i]] >= 1 {
      if i < |s.reg.keys| { assert t.reg.keys[i] == s.reg.keys[i]; }
    }
  }

  /** Below capacity one more live order is filed, under two new keys. */
  lemma FileFiller(s: Sys, capacity: nat) returns (step: Step)
    requires Filling(s) && |s.reg.at| < capacity
    ensures Enabled(s, step) && Filling(Next(s, step, capacity))
    ensures |Next(s, step, capacity).reg.at| == |s.reg.at| + 2
  {
    var cid := FillerId(|s.recs| + 2);
    var key := Key("acct", cid);
    step := Create("acct", cid, 1, None);
    KeyEncodes("acct", cid);
    assert key != cid by { assert |key| > |cid|; }
    assert RegPruned(s, capacity) == s.reg;
    CreateStep(s, step, capacity);
    hide Next, RegPruned, Encodes, Key, FillerId;
    FillerIsFresh(s, key, cid);
    FillerIsFresh(s, cid, cid);
    hide Filling;
    StillFilling(s, key, cid);
    assert Next(s, step, capacity) == WithFiller(s, key, cid);
  }

  lemma TwoMore(m: map<string, nat>, a: string, b: string, v: nat)
    requires a !in m && b !in m && a != b
    ensures |m[a := v][b := v]| == |m| + 2
  {
    assert m[a := v].Keys == m.Keys + {a};
    assert m[a := v][b := v].Keys == m[a := v].Keys + {b};
  }

  lemma {:induction false} Fill(s: Sys, capacity: nat) returns (steps: seq<Step>)
    requires Filling(s)
    ensures Runs(s, steps, capacity)
    ensures Filling(End(s, steps, capacity)) && |End(s, steps, capacity).reg.at| >= capacity
    decreases if |s.reg.at| < capacity then capacity - |s.reg.at| else 0
  {
    hide Filling, Next, Enabled;
    if |s.reg.at| >= capacity {
      RunNil(s, capacity);
      steps := [];
    } else {
      var step := FileFiller(s, capacity);
      var more := Fill(Next(s, step, capacity), capacity);
      steps := RunCons(s, step, Next(s, step, capacity), more, capacity);
    }
  }

  lemma {:induction false} NoneTerminal(keys: seq<string>, status: map<string, Status>)
    requires forall i | 0 <= i < |keys| :: keys[i] in status ==> !Prunable(status[keys[i]])
    ensures TerminalKeys(keys, status) == []
  {
    if keys == [] {
    } else {
      NoneTerminal(keys[1..], status);
    }
  }

  /** In a full registry only the cancelled order's keys are prunable, and both go. */
  lemma CancelledIsForgotten(s: Sys, capacity: nat)
    requires Filling(s) && |s.reg.at| >= capacity
    ensures Lookup(RegPruned(s, capacity), "acct", "id").None?
  {
    var key, keys, st := Key("acct", "id"), s.reg.keys, StatusMap(s);
    var rest := keys[2..];
    assert keys == [key] + (["id"] + rest);
    assert ([key] + (["id"] + rest))[1..] == ["id"] + rest && (["id"] + rest)[1..] == rest;
    forall i | 0 <= i < |rest| && rest[i] in st ensures !Prunable(st[rest[i]]) { assert rest[i] == keys[i + 2]; }
    NoneTerminal(rest, st);
    assert TerminalKeys(["id"] + rest, st) == ["id"] + TerminalKeys(rest, st) == ["id"];
    assert TerminalKeys(keys, st) == [key] + ["id"] == [key, "id"];
    SurvivesIff(s, capacity, key);
    SurvivesIff(s, capacity, "id");
    hide TerminalKeys, RegPruned;
    assert Batch(s) == [key, "id"];
  }

  /** Submit the order filed last, and let both submissions reach the broker. */
  lemma SubmitAndPlace(s: Sys, b: Order, capacity: nat) returns (steps: seq<Step>)
    requires s.recs != [] && s.recs[|s.recs| - 1] == b && b.status == Created && s.calls == [IN_FLIGHT]
    ensures Runs(s, steps, capacity)
    ensures var t, n := End(s, steps, capacity), |s.recs| - 1;
            && |t.recs| == |s.recs| && (forall r | 0 <= r < |s.recs| :: t.recs[r].cid == s.recs[r].cid)
            && |Sends(t, 0)| >= 1 && |Sends(t, n)| >= 1
  {
    var n, e, q := |s.recs| - 1, Entry(Filled, 1.0, 1), Pending(Submitting, |s.recs| - 1, None, true);
    var s5 := s.(recs := s.recs[n := b.(status := Submitted, attempts := b.attempts + 1)], calls := [IN_FLIGHT, q]);
    var s6 := s5.(calls := [IN_FLIGHT.(brokerId := Some("b0")), q], book := s5.book["b0" := e]);
    var s7 := s6.(calls := [IN_FLIGHT.(brokerId := Some("b0")), q.(brokerId := Some("b1"))],
        book := s6.book["b1" := e]);
    assert Next(s, CallSubmit(n), capacity) == s5;
    assert Next(s5, Place(0, "b0", e), capacity) == s6 && Next(s6, Place(1, "b1", e), capacity) == s7;
    assert Enabled(s, CallSubmit(n)) && Enabled(s5, Place(0, "b0", e)) && Enabled(s6, Place(1, "b1", e));
    assert 0 in Sends(s7, 0) && 1 in Sends(s7, n);
    RunNil(s7, capacity);
    hide Next, Enabled, Runs, End, Sends;
    steps := RunCons(s6, Place(1, "b1", e), s7, [], capacity);
    steps := RunCons(s5, Place(0, "b0", e), s6, steps, capacity);
    steps := RunCons(s, CallSubmit(n), s5, steps, capacity);
  }

  function Filed1(): Registry<nat> {
    Registry([Key("acct", "id"), "id"], map[Key("acct", "id") := 0, "id" := 0])
  }

  lemma FirstCreate(capacity: nat)
    ensures Enabled(INIT, AGAIN) && Next(INIT, AGAIN, capacity) == Sys([FIRST], Filed1(), [], map[], {})
  {
    KeysDiffer();
    assert StatusMap(INIT) == map[];
    assert RegPruned(INIT, capacity) == Registry([], map[]);
    CreateStep(INIT, AGAIN, capacity);
    hide RegPruned, Key;
    assert [] + [Key("acct", "id")] + ["id"] == [Key("acct", "id"), "id"];
  }

  lemma CancelledIsFilling()
    ensures Filling(Sys([CANCELLED], Filed1(), [IN_FLIGHT], map[], {0}))
  {
    KeysDiffer();
    KeyEncodes("acct", "id");
  }

  /** The created order is submitted, and cancelled while its submission is under way. */
  lemma SubmitThenCancel(reg: Registry<nat>, capacity: nat)
    ensures var s1 := Sys([FIRST], reg, [], map[], {});
            var s2 := Sys([FIRST.(status := Submitted, attempts := 1)], reg, [IN_FLIGHT], map[], {});
            && Enabled(s1, CallSubmit(0)) && Next(s1, CallSubmit(0), capacity) == s2
            && Enabled(s2, CallCancel(0))
            && Next(s2, CallCancel(0), capacity) == Sys([CANCELLED], reg, [IN_FLIGHT], map[], {0})
  {
  }

  lemma CancelInFlight(capacity: nat) returns (steps: seq<Step>)
    ensures Runs(INIT, steps, capacity) && Filling(End(INIT, steps, capacity))
  {
    FirstCreate(capacity);
    CancelledIsFilling();
    SubmitThenCancel(Filed1(), capacity);
    hide Filling, Filed1, Next, Enabled, Runs, End;
    var s1 := Sys([FIRST], Filed1(), [], map[], {});
    var s2 := Sys([FIRST.(status := Submitted, attempts := 1)], Filed1(), [IN_FLIGHT], map[], {});
    var s3 := Sys([CANCELLED], Filed1(), [IN_FLIGHT], map[], {0});
    RunNil(s3, capacity);
    steps := RunCons(s2, CallCancel(0), s3, [], capacity);
    steps := RunCons(s1, CallSubmit(0), s2, steps, capacity);
    steps := RunCons(INIT, AGAIN, s1, steps, capacity);
  }

  /** In a full registry the cancelled order's id makes a second record. */
  lemma SecondCreate(s: Sys, capacity: nat)
    requires Filling(s) && |s.reg.at| >= capacity
    ensures Enabled(s, AGAIN)
    ensures var t := Next(s, AGAIN, capacity);
            && t.recs == s.recs + [FIRST] && t.calls == [IN_FLIGHT]
            && s.recs != [] && s.recs[0].cid == FIRST.cid
  {
    CancelledIsForgotten(s, capacity);
    CreateStep(s, AGAIN, capacity);
    hide RegPruned, Lookup;
  }

  lemma {:induction false} RunAppend(s: Sys, a: seq<Step>, b: seq<Step>, capacity: nat)
    requires Runs(s, a, capacity) && Runs(End(s, a, capacity), b, capacity)
    ensures Runs(s, a + b, capacity) && End(s, a + b, capacity) == End(End(s, a, capacity), b, capacity)
    decreases |a|
  {
    hide Next, Enabled;
    if a == [] {
      assert a + b == b;
    } else {
      assert (a + b)[1..] == a[1..] + b;
      RunAppend(Next(s, a[0], capacity), a[1..], b, capacity);
    }
  }

  /**
    At every capacity, that of the code included: an order cancelled while its submission is under way is pruned once
    the registry has filled up with live orders, created again, and sent again under the same client order id.
  */
  lemma PrunedOrderIsResent(capacity: nat) returns (steps: seq<Step>)
    ensures Runs(INIT, steps, capacity)
    ensures var s := End(INIT, steps, capacity); var n := |s.recs| - 1;
            n > 0 && s.recs[0].cid == s.recs[n].cid && |Sends(s, 0)| >= 1 && |Sends(s, n)| >= 1
  {
    hide Next, Enabled, Runs, End, Sends, Filling;
    var first := CancelInFlight(capacity);
    var s := End(INIT, first, capacity);
    var fillers := Fill(s, capacity);
    var full := End(s, fillers, capacity);
    SecondCreate(full, capacity);
    var t := Next(full, AGAIN, capacity);
    steps := SubmitAndPlace(t, FIRST, capacity);
    steps := RunCons(full, AGAIN, t, steps, capacity);
    RunAppend(s, fillers, steps, capacity);
    steps := fillers + steps;
    RunAppend(INIT, first, steps, capacity);
    steps := first + steps;
  }
}
