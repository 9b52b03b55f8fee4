/**
  Grouping a list by a string key, as Python's `defaultdict(list)` does: groups in order, keys in order of first
  appearance.
*/
module Grouping {

  function Group<T>(items: seq<T>, key: T -> string, k: string): seq<T> {
    if items == [] then []
    else Group(items[..|items| - 1], key, k) + if key(items[|items| - 1]) == k then [items[|items| - 1]] else []
  }

  function Keys<T>(items: seq<T>, key: T -> string): seq<string> {
    if items == [] then []
    else
      var before := Keys(items[..|items| - 1], key);
      if key(items[|items| - 1]) in before then before else before + [key(items[|items| - 1])]
  }

  predicate Distinct(ks: seq<string>) { forall i, j | 0 <= i < j < |ks| :: ks[i] != ks[j] }

  /** Keys come in the order in which they first appear. */
  lemma {:induction false} KeysInOrder<T>(items: seq<T>, key: T -> string, i: nat, j: nat) returns (a: nat)
    requires i < j < |Keys(items, key)|
    ensures a < |items| && key(items[a]) == Keys(items, key)[i]
    ensures forall b | 0 <= b < |items| && key(items[b]) == Keys(items, key)[j] :: a < b
    decreases |items|
  {
    var init, x := items[..|items| - 1], items[|items| - 1];
    var before := Keys(init, key);
    KeysAreKeys(init, key);
    assert forall b | 0 <= b < |init| :: init[b] == items[b] && init[b] in init;
    if j < |before| {
      a := KeysInOrder(init, key, i, j);
    } else {
      a := FirstKeyed(init, key, before[i]);
    }
  }

  lemma FirstKeyed<T>(items: seq<T>, key: T -> string, k: string) returns (a: nat)
    requires k in Keys(items, key)
    ensures a < |items| && key(items[a]) == k
  {
    KeysAreKeys(items, key);
    var x :| x in items && key(x) == k;
    a :| a < |items| && items[a] == x;
  }

  /** The keys and groups of two items. */
  lemma PairGroups<T>(x: T, y: T, key: T -> string, k: string)
    ensures Group([x, y], key, k) == (if key(x) == k then [x] else []) + if key(y) == k then [y] else []
    ensures Keys([x, y], key) == if key(x) == key(y) then [key(x)] else [key(x), key(y)]
  {
    GroupSnoc([], x, key, k);
    KeysSnoc([], x, key);
    assert [] + [x] == [x] && [x] + [y] == [x, y];
    GroupSnoc([x], y, key, k);
    KeysSnoc([x], y, key);
  }

  lemma GroupSnoc<T>(items: seq<T>, x: T, key: T -> string, k: string)
    ensures Group(items + [x], key, k) == Group(items, key, k) + if key(x) == k then [x] else []
  {
    assert (items + [x])[..|items|] == items;
  }

  lemma KeysSnoc<T>(items: seq<T>, x: T, key: T -> string)
    ensures var before := Keys(items, key);
            Keys(items + [x], key) == if key(x) in before then before else before + [key(x)]
  {
    assert (items + [x])[..|items|] == items;
  }

  lemma {:induction false} KeysAreKeys<T>(items: seq<T>, key: T -> string)
    ensures Distinct(Keys(items, key))
    ensures forall k :: k in Keys(items, key) <==> exists x | x in items :: key(x) == k
    decreases |items|
  {
    if items == [] {
    } else {
      var init, x := items[..|items| - 1], items[|items| - 1];
      KeysAreKeys(init, key);
      assert items == init + [x];
      forall k ensures k in Keys(items, key) <==> exists y | y in items :: key(y) == k {
        assert (exists y | y in items :: key(y) == k) <==> key(x) == k || exists y | y in init :: key(y) == k;
      }
    }
  }

  lemma {:induction false} GroupHas<T>(items: seq<T>, key: T -> string, k: string)
    ensures forall x :: x in Group(items, key, k) <==> x in items && key(x) == k
    ensures |Group(items, key, k)| <= |items|
    decreases |items|
  {
    if items == [] {
    } else {
      GroupHas(items[..|items| - 1], key, k);
      assert items == items[..|items| - 1] + [items[|items| - 1]];
    }
  }

  lemma {:induction false} KeysHaveGroups<T>(items: seq<T>, key: T -> string, k: string)
    ensures k in Keys(items, key) <==> Group(items, key, k) != []
    decreases |items|
  {
    if items == [] {
    } else {
      KeysHaveGroups(items[..|items| - 1], key, k);
    }
  }

  lemma {:induction false} GroupJoin<T>(a: seq<T>, b: seq<T>, key: T -> string, k: string)
    ensures Group(a + b, key, k) == Group(a, key, k) + Group(b, key, k)
    decreases |b|
  {
    if b == [] {
      assert a + b == a;
    } else {
      var init, x := b[..|b| - 1], b[|b| - 1];
      GroupJoin(a, init, key, k);
      assert a + b == (a + init) + [x];
      GroupSnoc(a + init, x, key, k);
    }
  }

  lemma {:induction false} GroupOfOneKey<T>(items: seq<T>, key: T -> string, k: string)
    requires forall i | 0 <= i < |items| :: key(items[i]) == k
    ensures Group(items, key, k) == items
    decreases |items|
  {
    if items == [] {
    } else {
      var init, x := items[..|items| - 1], items[|items| - 1];
      GroupOfOneKey(init, key, k);
      assert items == init + [x];
    }
  }

  lemma {:induction false} KeysOfOneKey<T>(items: seq<T>, key: T -> string, k: string)
    requires forall i | 0 <= i < |items| :: key(items[i]) == k
    ensures Keys(items, key) == if items == [] then [] else [k]
    decreases |items|
  {
    if items == [] {
    } else {
      KeysOfOneKey(items[..|items| - 1], key, k);
    }
  }

  lemma {:induction false} GroupOfAnotherKey<T>(items: seq<T>, key: T -> string, k: string)
    requires forall i | 0 <= i < |items| :: key(items[i]) != k
    ensures Group(items, key, k) == []
    decreases |items|
  {
    if items == [] {
    } else {
      GroupOfAnotherKey(items[..|items| - 1], key, k);
    }
  }

  method GroupBy<T>(items: seq<T>, key: T -> string) returns (keys: seq<string>, groups: map<string, seq<T>>)
    ensures keys == Keys(items, key) && groups.Keys == set k | k in keys
    ensures forall k | k in keys :: groups[k] == Group(items, key, k)
  {
    keys, groups := [], map[];
    for i := 0 to |items|
      invariant keys == Keys(items[..i], key) && groups.Keys == set k | k in keys
      invariant forall k | k in keys :: groups[k] == Group(items[..i], key, k)
      invariant forall k | k !in keys :: Group(items[..i], key, k) == []
    {
      var x, k := items[i], key(items[i]);
      assert items[..i + 1] == items[..i] + [x];
      forall j ensures Group(items[..i + 1], key, j) == Group(items[..i], key, j) + if k == j then [x] else [] {
        GroupSnoc(items[..i], x, key, j);
      }
      KeysSnoc(items[..i], x, key);
      hide Group, Keys;
      if k in groups {
        groups := groups[k := groups[k] + [x]];
      } else {
        keys := keys + [k];
        groups := groups[k := [x]];
      }
    }
    assert items[..|items|] == items;
  }

  /** The dictionary from keys to items: a later item replaces an earlier one with its key. */
  function Dict<T>(items: seq<T>, key: T -> string): map<string, T> {
    if items == [] then map[] else Dict(items[..|items| - 1], key)[key(items[|items| - 1]) := items[|items| - 1]]
  }

  lemma {:induction false} DictFinds<T>(items: seq<T>, key: T -> string)
    ensures forall k :: k in Dict(items, key) <==> k in Keys(items, key)
    ensures forall k | k in Dict(items, key) :: Dict(items, key)[k] in items && key(Dict(items, key)[k]) == k
    decreases |items|
  {
    if items == [] {
    } else {
      DictFinds(items[..|items| - 1], key);
      assert items == items[..|items| - 1] + [items[|items| - 1]];
    }
  }

  /** With distinct keys nothing is replaced. */
  lemma {:induction false} DictOfDistinct<T>(items: seq<T>, key: T -> string, i: nat)
    requires i < |items| && forall a, b | 0 <= a < b < |items| :: key(items[a]) != key(items[b])
    ensures key(items[i]) in Dict(items, key) && Dict(items, key)[key(items[i])] == items[i]
    decreases |items|
  {
    if i == |items| - 1 {
    } else {
      DictOfDistinct(items[..|items| - 1], key, i);
    }
  }

  method BuildDict<T>(items: seq<T>, key: T -> string) returns (keys: seq<string>, dict: map<string, T>)
    ensures keys == Keys(items, key) && dict == Dict(items, key)
  {
    keys, dict := [], map[];
    for i := 0 to |items|
      invariant keys == Keys(items[..i], key) && dict == Dict(items[..i], key)
    {
      assert items[..i + 1][..i] == items[..i];
      DictFinds(items[..i], key);
      if key(items[i]) !in dict { keys := keys + [key(items[i])]; }
      dict := dict[key(items[i]) := items[i]];
    }
    assert items[..|items|] == items;
  }

  /** The results of the groups, one after the other. */
  function Merge<T>(ks: seq<string>, result: string -> seq<T>): seq<T> {
    if ks == [] then [] else Merge(ks[..|ks| - 1], result) + result(ks[|ks| - 1])
  }

  lemma MergeNone<T>(ks: seq<string>, result: string -> seq<T>)
    ensures Merge(ks[..0], result) == []
  {
  }

  lemma MergeSnoc<T>(ks: seq<string>, i: nat, result: string -> seq<T>)
    requires i < |ks|
    ensures Merge(ks[..i + 1], result) == Merge(ks[..i], result) + result(ks[i])
  {
    assert ks[..i + 1][..i] == ks[..i];
  }

  /** Merging results that stay in their groups and regrouping gives each group's result back. */
  lemma {:induction false} GroupOfMerge<T>(ks: seq<string>, result: string -> seq<T>, key: T -> string, k: string)
    requires Distinct(ks) && forall j, i | j in ks && 0 <= i < |result(j)| :: key(result(j)[i]) == j
    ensures Group(Merge(ks, result), key, k) == if k in ks then result(k) else []
    decreases |ks|
  {
    if ks == [] { return; }
    hide Group, Merge;
    var n := |ks| - 1;
    var init, last := ks[..n], ks[n];
    MergeSnoc(ks, n, result);
    assert ks == ks[..n + 1] == init + [last];
    GroupOfMerge(init, result, key, k);
    GroupJoin(Merge(init, result), result(last), key, k);
    if k == last { GroupOfOneKey(result(last), key, k); } else { GroupOfAnotherKey(result(last), key, k); }
  }
}
