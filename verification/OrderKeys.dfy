/**
  The registry's dictionary by its keys: which keys a pruning drops, which record an id leads to, and what filing a
  record adds.
*/
module OrderKeys {
  import opened Grouping
  import opened Text
  import opened OrderLifecycle
  import opened OrderRegistry

  /** An account's key names its account too, and is no bare id. */
  lemma KeyNamesAccount(a: string, c: Uuid, b: string, d: Uuid)
    ensures Key(a, c) == Key(b, d) <==> a == b && c == d
    ensures Key(a, c) != d
  {
    KeyEncodes(a, c);
    KeyEncodes(b, d);
    if Key(a, c) == Key(b, d) {
      EncodesOne(Key(a, c), c, d);
      assert Key(a, c)[..|a|] == a && Key(b, d)[..|b|] == b;
    }
    assert Key(a, c)[|a|] == ':';
  }

  // ---------------------------------------------------------------- which keys a pruning drops

  /** The record under the `i`-th key is closed, rejected or cancelled. */
  predicate Over(keys: seq<string>, status: map<string, Status>, i: nat)
    requires i < |keys|
  {
    keys[i] in status && (status[keys[i]] == Closed || status[keys[i]] == Rejected || status[keys[i]] == Cancelled)
  }

  /** How many of the first `n` keys are over. */
  function OverBefore(keys: seq<string>, status: map<string, Status>, n: nat): nat
    requires n <= |keys|
  {
    if n == 0 then 0 else OverBefore(keys, status, n - 1) + if Over(keys, status, n - 1) then 1 else 0
  }

  lemma {:induction false} OverBeforeTail(keys: seq<string>, status: map<string, Status>, n: nat)
    requires 0 < n <= |keys|
    ensures OverBefore(keys, status, n)
            == (if Over(keys, status, 0) then 1 else 0) + OverBefore(keys[1..], status, n - 1)
    decreases n
  {
    if n == 1 {
    } else {
      OverBeforeTail(keys, status, n - 1);
      assert keys[1..][n - 2] == keys[n - 1];
    }
  }

  /** The listed keys are those that are over, each at the place it has among them. */
  lemma {:induction false} TerminalKeysHold(keys: seq<string>, status: map<string, Status>, i: nat)
    requires i < |keys| && Over(keys, status, i)
    ensures var n := OverBefore(keys, status, i);
            n < |TerminalKeys(keys, status)| && TerminalKeys(keys, status)[n] == keys[i]
    decreases |keys|
  {
    if i == 0 {
    } else {
      OverBeforeTail(keys, status, i);
      assert keys[1..][i - 1] == keys[i];
      TerminalKeysHold(keys[1..], status, i - 1);
    }
  }

  lemma {:induction false} TerminalKeysAreOver(keys: seq<string>, status: map<string, Status>, n: nat) returns (i: nat)
    requires n < |TerminalKeys(keys, status)|
    ensures i < |keys| && Over(keys, status, i)
    ensures OverBefore(keys, status, i) == n && TerminalKeys(keys, status)[n] == keys[i]
    decreases |keys|
  {
    if n == 0 && Over(keys, status, 0) {
      i := 0;
    } else {
      i := TerminalKeysAreOver(keys[1..], status, if Over(keys, status, 0) then n - 1 else n);
      i := i + 1;
      OverBeforeTail(keys, status, i);
      assert keys[1..][i - 1] == keys[i];
    }
  }

  /**
    A key is dropped if and only if the registry is at capacity, its record is closed, rejected or cancelled, and fewer
    than a thousand such keys were filed before it.
  */
  lemma DroppedIff<R>(reg: Registry<R>, status: map<string, Status>, capacity: nat, i: nat)
    requires Distinct(reg.keys) && i < |reg.keys| && reg.keys[i] in reg.at
    ensures var after := Pruned(reg, status, capacity);
            && (reg.keys[i] !in after.at <==>
                  |reg.at| >= capacity && Over(reg.keys, status, i) && OverBefore(reg.keys, status, i) < 1000)
            && (reg.keys[i] in after.at ==> after.at[reg.keys[i]] == reg.at[reg.keys[i]])
  {
    var k, ks := reg.keys[i], TerminalKeys(reg.keys, status);
    var batch := Take(ks, PRUNE_BATCH);
    PopAllAt(reg, batch);
    hide PopAll, TerminalKeys, OverBefore;
    if Over(reg.keys, status, i) {
      TerminalKeysHold(reg.keys, status, i);
      if OverBefore(reg.keys, status, i) < 1000 { assert batch[OverBefore(reg.keys, status, i)] == k; }
    }
    if k in batch {
      var n :| 0 <= n < |batch| && batch[n] == k;
      var j := TerminalKeysAreOver(reg.keys, status, n);
      assert reg.keys[j] == reg.keys[i];
    }
  }

  /** The keys that stay keep their order. */
  lemma {:induction false} PopKeepsOrder<R>(reg: Registry<R>, ks: seq<string>, a: string, b: string)
    requires a !in ks && b !in ks && Precedes(reg.keys, a, b)
    ensures Precedes(PopAll(reg, ks).keys, a, b)
    decreases |ks|
  {
    if ks == [] {
    } else {
      WithoutKeepsOrder(reg.keys, ks[0], a, b);
      PopKeepsOrder(Pop(reg, ks[0]), ks[1..], a, b);
    }
  }

  /** One key stands before the other. */
  ghost predicate Precedes(keys: seq<string>, a: string, b: string) {
    exists i, j :: 0 <= i < j < |keys| && keys[i] == a && keys[j] == b
  }

  lemma {:induction false} WithoutKeepsOrder(keys: seq<string>, k: string, a: string, b: string)
    requires a != k && b != k && Precedes(keys, a, b)
    ensures Precedes(Without(keys, k), a, b)
    decreases |keys|
  {
    var i, j :| 0 <= i < j < |keys| && keys[i] == a && keys[j] == b;
    var w := Without(keys, k);
    if keys[0] == k {
      assert w[i - 1] == a && w[j - 1] == b;
    } else if i > 0 {
      assert keys[1..][i - 1] == a && keys[1..][j - 1] == b;
      WithoutKeepsOrder(keys[1..], k, a, b);
      var m, n :| 0 <= m < n < |w| - 1 && w[1..][m] == a && w[1..][n] == b;
      assert w[m + 1] == a && w[n + 1] == b;
    } else {
      assert keys[1..][j - 1] == b;
      var n := WithoutHas(keys[1..], k, b);
      assert w[0] == a && w[n + 1] == b;
    }
  }

  lemma {:induction false} WithoutHas(keys: seq<string>, k: string, b: string) returns (n: nat)
    requires b != k && b in keys
    ensures n < |Without(keys, k)| && Without(keys, k)[n] == b
    decreases |keys|
  {
    if keys[0] == b {
      n := 0;
    } else if keys[0] == k {
      n :| n < |keys| - 1 && keys[1..][n] == b;
    } else {
      n := WithoutHas(keys[1..], k, b);
      n := n + 1;
    }
  }

  // ---------------------------------------------------------------- which record an id leads to

  /** `transition` finds the record under the bare id, else the one under the first key whose record has the id. */
  lemma AddressedMeans<R>(reg: Registry<R>, cidOf: map<string, Uuid>, cid: Uuid)
    requires forall k | k in reg.keys :: k in reg.at && k in cidOf
    ensures cid in reg.at ==> Addressed(reg, cidOf, cid) == Some(reg.at[cid])
    ensures cid !in reg.at && (forall i | 0 <= i < |reg.keys| :: cidOf[reg.keys[i]] != cid) ==>
              Addressed(reg, cidOf, cid).None?
    ensures forall i | 0 <= i < |reg.keys| && FirstNamed(reg.keys, cidOf, cid, i) ::
              cid !in reg.at ==> Addressed(reg, cidOf, cid) == Some(reg.at[reg.keys[i]])
  {
    if cid !in reg.at { FirstWithIdMeans(reg.keys, reg.at, cidOf, cid); }
    hide FirstWithId;
  }

  predicate FirstNamed(keys: seq<string>, cidOf: map<string, Uuid>, cid: Uuid, i: nat)
    requires forall k | k in keys :: k in cidOf
  {
    i < |keys| && cidOf[keys[i]] == cid && forall j | 0 <= j < i :: cidOf[keys[j]] != cid
  }

  lemma {:induction false} FirstWithIdMeans<R>(keys: seq<string>, at: map<string, R>, cidOf: map<string, Uuid>,
      cid: Uuid)
    requires forall k | k in keys :: k in at && k in cidOf
    ensures (forall i | 0 <= i < |keys| :: cidOf[keys[i]] != cid) ==> FirstWithId(keys, at, cidOf, cid).None?
    ensures forall i | 0 <= i < |keys| && FirstNamed(keys, cidOf, cid, i) ::
              FirstWithId(keys, at, cidOf, cid) == Some(at[keys[i]])
    decreases |keys|
  {
    if keys == [] || cidOf[keys[0]] == cid {
    } else {
      FirstWithIdMeans(keys[1..], at, cidOf, cid);
      forall i | 0 <= i < |keys| && FirstNamed(keys, cidOf, cid, i)
        ensures FirstWithId(keys, at, cidOf, cid) == Some(at[keys[i]])
      {
        assert i > 0 && keys[1..][i - 1] == keys[i];
        assert FirstNamed(keys[1..], cidOf, cid, i - 1);
      }
    }
  }

  // ---------------------------------------------------------------- what filing adds

  /**
    `create_intent` after its pruning: the account's own record if there is one, else the one under the bare id, which
    gains the account's key; else a new record under both keys.  Nothing else changes.
  */
  lemma FiledMeans<R>(reg: Registry<R>, account: string, cid: Uuid, newcomer: R)
    ensures var own, after := account + ":" + cid, Filed(reg, account, cid, newcomer);
            && (own in reg.at ==> after == reg)
            && (own !in reg.at && cid in reg.at ==>
                after.at == reg.at[own := reg.at[cid]] && after.keys == reg.keys + [own])
            && (own !in reg.at && cid !in reg.at ==>
                  after.at == reg.at[own := newcomer][cid := newcomer] && after.keys == reg.keys + [own, cid])
            && Lookup(reg, account, cid) ==
                 if own in reg.at then Some(reg.at[own]) else if cid in reg.at then Some(reg.at[cid]) else None
  {
    KeyNamesAccount(account, cid, account, cid);
    assert (reg.keys + [Key(account, cid)]) + [cid] == reg.keys + [Key(account, cid), cid];
  }
}
