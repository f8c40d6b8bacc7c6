/**
 * Counting keys into an object used as a dictionary: the groups
 * `Object.values(acc)` lists once every key is counted, and the state of the
 * accumulator part-way through.
 */
module Counting {
  import opened JsObject

  /** One value of Object.values(acc): a key and its count. */
  datatype Group = Group(key: string, count: nat)

  function KeysOf(groups: seq<Group>): (ks: seq<string>)
    ensures |ks| == |groups| && forall i :: 0 <= i < |groups| ==> ks[i] == groups[i].key
  {
    seq(|groups|, i requires 0 <= i < |groups| => groups[i].key)
  }

  /**
   * What `Object.values(keys.reduce(count into acc, {}))` is: one group per
   * distinct key, counting its occurrences, in the object's property order:
   * array-index keys ascending, then the other keys as first seen.
   */
  ghost predicate IsTally(keys: seq<string>, groups: seq<Group>) {
    && Distinct(KeysOf(groups))
    && (forall g :: g in groups ==> g.key in keys && g.count == multiset(keys)[g.key])
    && (forall k :: k in keys ==> k in KeysOf(groups))
    && PropertyOrder(KeysOf(groups))
    && NonIndexKeys(KeysOf(groups)) == FirstSeen(NonIndexKeys(keys))
  }

  /** Before the first key, nothing is counted. */
  lemma CountedStart(keys: seq<string>)
    ensures Counted(keys, 0, [], map[])
  {
    assert keys[..0] == [];
  }

  /** A key not seen before is placed in the order and counted once. */
  lemma CountNew(keys: seq<string>, i: nat, order: seq<string>, count: map<string, nat>)
    requires Counted(keys, i, order, count) && i < |keys| && keys[i] !in count
    ensures Counted(keys, i + 1, Place(order, keys[i]), count[keys[i] := 1])
  {
    var k := keys[i];
    TallySnoc(keys, i);
    PlaceNew(keys, i, order);
    assert count[k := 1] == Tally(keys[..i + 1]);
  }

  /** A key seen before only has its count raised. */
  lemma CountSeen(keys: seq<string>, i: nat, order: seq<string>, count: map<string, nat>)
    requires Counted(keys, i, order, count) && i < |keys| && keys[i] in count
    ensures Counted(keys, i + 1, order, count[keys[i] := count[keys[i]] + 1])
  {
    TallySnoc(keys, i);
    CountStep(keys, i, order);
  }

  lemma OrderIsCounted(keys: seq<string>, i: nat, order: seq<string>, count: map<string, nat>)
    requires Counted(keys, i, order, count)
    ensures forall j :: 0 <= j < |order| ==> order[j] in count
  {
  }

  /** Once every key is read, the groups in order are the tally. */
  lemma CountedIsTally(keys: seq<string>, order: seq<string>, count: map<string, nat>, groups: seq<Group>)
    requires Counted(keys, |keys|, order, count)
    requires |groups| == |order|
    requires forall j :: 0 <= j < |order| ==> groups[j] == Group(order[j], count[order[j]])
    ensures IsTally(keys, groups)
  {
    assert keys[..|keys|] == keys;
    assert KeysOf(groups) == order;
  }

  /** How often each key of s occurs in it. */
  function Tally(s: seq<string>): map<string, nat> {
    map x | x in s :: multiset(s)[x]
  }

  /**
   * The accumulator after the first i keys: `order` holds each key read so
   * far once, in property order, and `count` how often it occurred.
   */
  ghost predicate Counted(keys: seq<string>, i: nat, order: seq<string>, count: map<string, nat>) {
    && i <= |keys|
    && Distinct(order)
    && (forall k :: k in order <==> k in keys[..i])
    && count == Tally(keys[..i])
    && PropertyOrder(order)
    && NonIndexKeys(order) == FirstSeen(NonIndexKeys(keys[..i]))
  }

  /** Reading keys[i] opens its entry at 0 when it is new, then adds one to it. */
  lemma TallySnoc(keys: seq<string>, i: nat)
    requires i < |keys|
    ensures var t, k := Tally(keys[..i]), keys[i];
      var base := if k in t then t else t[k := 0];
      Tally(keys[..i + 1]) == base[k := base[k] + 1]
  {
    var p, k := keys[..i], keys[i];
    assert keys[..i + 1] == p + [k];
    var t := Tally(p);
    var base := if k in t then t else t[k := 0];
    assert k !in t ==> multiset(p)[k] == 0;
    assert Tally(keys[..i + 1]) == base[k := base[k] + 1];
  }

  /** Placing a key not seen before keeps the order of the keys read so far. */
  lemma PlaceNew(keys: seq<string>, i: nat, order: seq<string>)
    requires i < |keys| && keys[i] !in order
    requires Distinct(order) && PropertyOrder(order)
    requires forall x :: x in order <==> x in keys[..i]
    requires NonIndexKeys(order) == FirstSeen(NonIndexKeys(keys[..i]))
    ensures var placed := Place(order, keys[i]);
      && Distinct(placed) && PropertyOrder(placed)
      && (forall x :: x in placed <==> x in keys[..i + 1])
      && NonIndexKeys(placed) == FirstSeen(NonIndexKeys(keys[..i + 1]))
  {
    var k := keys[i];
    CountStep(keys, i, order);
    PlaceDistinct(order, k);
    PlaceOrder(order, k);
    PlaceNonIndex(order, k);
    PlaceMembers(order, k);
  }

  /** How the prefix of keys the loop has read grows by one key. */
  lemma CountStep(keys: seq<string>, i: nat, order: seq<string>)
    requires i < |keys|
    requires NonIndexKeys(order) == FirstSeen(NonIndexKeys(keys[..i]))
    requires forall x :: x in order <==> x in keys[..i]
    ensures keys[..i + 1] == keys[..i] + [keys[i]]
    ensures multiset(keys[..i + 1]) == multiset(keys[..i]) + multiset{keys[i]}
    ensures keys[i] in order ==> FirstSeen(NonIndexKeys(keys[..i + 1])) == NonIndexKeys(order)
    ensures keys[i] !in order ==>
      FirstSeen(NonIndexKeys(keys[..i + 1])) == NonIndexKeys(order) + NonIndexKeys([keys[i]])
  {
    assert keys[..i + 1] == keys[..i] + [keys[i]];
    FirstSeenStep(keys[..i], keys[i], order);
  }

  /** The non-index keys first seen in p + [k], given those of p. */
  lemma FirstSeenStep(p: seq<string>, k: string, order: seq<string>)
    requires NonIndexKeys(order) == FirstSeen(NonIndexKeys(p))
    requires k in order <==> k in p
    ensures k in order ==> FirstSeen(NonIndexKeys(p + [k])) == NonIndexKeys(order)
    ensures k !in order ==> FirstSeen(NonIndexKeys(p + [k])) == NonIndexKeys(order) + NonIndexKeys([k])
  {
    NonIndexKeysAppend(p, [k]);
    NonIndexKeysOne(k);
    var f := NonIndexKeys(p);
    if IsArrayIndex(k) {
      assert NonIndexKeys(p + [k]) == f;
      assert NonIndexKeys(order) + NonIndexKeys([k]) == NonIndexKeys(order);
    } else {
      assert NonIndexKeys(p + [k]) == f + [k];
      FirstSeenSnoc(f, k);
      NonIndexKeysMembers(p, k);
    }
  }

  lemma FirstSeenSnoc(f: seq<string>, k: string)
    ensures FirstSeen(f + [k]) == if k in f then FirstSeen(f) else FirstSeen(f) + [k]
  {
    assert (f + [k])[..|f|] == f;
  }

  /** The sum of the counts. */
  function Total(groups: seq<Group>): nat {
    if groups == [] then 0 else groups[0].count + Total(groups[1..])
  }

  function SumCounts(ks: seq<string>, m: multiset<string>): nat {
    if ks == [] then 0 else m[ks[0]] + SumCounts(ks[1..], m)
  }

  lemma {:induction false} SumCountsIgnores(ks: seq<string>, m: multiset<string>, x: string)
    requires x !in ks
    ensures SumCounts(ks, m + multiset{x}) == SumCounts(ks, m)
  {
    if ks != [] {
      SumCountsIgnores(ks[1..], m, x);
    }
  }

  lemma {:induction false} SumCountsAddOne(ks: seq<string>, m: multiset<string>, x: string)
    requires Distinct(ks) && x in ks
    ensures SumCounts(ks, m + multiset{x}) == SumCounts(ks, m) + 1
  {
    if ks[0] == x {
      assert x !in ks[1..] by {
        forall j | 0 <= j < |ks[1..]| ensures ks[1..][j] != x { assert ks[1..][j] == ks[j + 1]; }
      }
      SumCountsIgnores(ks[1..], m, x);
    } else {
      SumCountsAddOne(ks[1..], m, x);
    }
  }

  /** Counting every key of `keys` once over distinct ks that cover them adds up to |keys|. */
  lemma {:induction false} SumCountsCovers(ks: seq<string>, keys: seq<string>)
    requires Distinct(ks) && forall k :: k in keys ==> k in ks
    ensures SumCounts(ks, multiset(keys)) == |keys|
    decreases |keys|
  {
    if keys == [] {
      SumCountsEmpty(ks);
    } else {
      var p, x := keys[..|keys| - 1], keys[|keys| - 1];
      assert keys == p + [x];
      SumCountsCovers(ks, p);
      SumCountsAddOne(ks, multiset(p), x);
    }
  }

  lemma {:induction false} SumCountsEmpty(ks: seq<string>)
    ensures SumCounts(ks, multiset{}) == 0
  {
    if ks != [] {
      SumCountsEmpty(ks[1..]);
    }
  }

  lemma {:induction false} TotalIsSumCounts(groups: seq<Group>, m: multiset<string>)
    requires forall g :: g in groups ==> g.count == m[g.key]
    ensures Total(groups) == SumCounts(KeysOf(groups), m)
  {
    if groups != [] {
      TotalIsSumCounts(groups[1..], m);
      assert KeysOf(groups)[1..] == KeysOf(groups[1..]);
    }
  }

  /** Every group counts at least one event, and the counts add up to the number of events. */
  lemma TallyTotal(keys: seq<string>, groups: seq<Group>)
    requires IsTally(keys, groups)
    ensures forall g :: g in groups ==> g.count >= 1
    ensures Total(groups) == |keys|
  {
    TotalIsSumCounts(groups, multiset(keys));
    SumCountsCovers(KeysOf(groups), keys);
  }
}
