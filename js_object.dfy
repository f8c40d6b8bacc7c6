/**
 * The order in which a JavaScript object lists its own string-keyed
 * properties (Object.keys, Object.values): keys that are array indices, the
 * canonical decimal text of an integer from 0 to 2^32 - 2, come first in
 * ascending numeric order; the other keys follow in the order they were
 * added. Place adds a new key to an object whose keys are already in that
 * order.
 */
module JsObject {
  import opened Text

  function DigitValue(c: char): nat {
    if IsDigit(c) then c as int - '0' as int else 0
  }

  /** The decimal value of a string of digits. */
  function Num(s: string): nat {
    if s == [] then 0 else 10 * Num(s[..|s| - 1]) + DigitValue(s[|s| - 1])
  }

  /** 2^32 - 2, the largest array index. */
  const MaxArrayIndex := 0xFFFF_FFFE

  /** An array index: the canonical decimal text of an integer from 0 to 2^32 - 2. */
  predicate IsArrayIndex(k: string) {
    && k != []
    && (forall i :: 0 <= i < |k| ==> IsDigit(k[i]))
    && (k[0] == '0' ==> |k| == 1)
    && Num(k) <= MaxArrayIndex
  }

  /** Array-index keys come first, in ascending numeric order. */
  ghost predicate PropertyOrder(order: seq<string>) {
    forall i, j :: 0 <= i < j < |order| && IsArrayIndex(order[j]) ==>
      IsArrayIndex(order[i]) && Num(order[i]) <= Num(order[j])
  }

  predicate Distinct(s: seq<string>) {
    forall i, j :: 0 <= i < j < |s| ==> s[i] != s[j]
  }

  /** The keys of s that are not array indices, in the order of s. */
  function NonIndexKeys(s: seq<string>): seq<string> {
    if s == [] then []
    else NonIndexKeys(s[..|s| - 1]) + (if IsArrayIndex(s[|s| - 1]) then [] else [s[|s| - 1]])
  }

  /** A key is among the non-index keys of s exactly when it is in s and not an array index. */
  lemma {:induction false} NonIndexKeysMembers(s: seq<string>, x: string)
    ensures x in NonIndexKeys(s) <==> x in s && !IsArrayIndex(x)
  {
    if s != [] {
      var p := s[..|s| - 1];
      NonIndexKeysMembers(p, x);
      assert s == p + [s[|s| - 1]];
    }
  }

  lemma {:induction false} NonIndexKeysAppend(a: seq<string>, b: seq<string>)
    ensures NonIndexKeys(a + b) == NonIndexKeys(a) + NonIndexKeys(b)
    decreases |b|
  {
    if b == [] {
      assert a + b == a;
    } else {
      var b' := b[..|b| - 1];
      assert (a + b)[..|a + b| - 1] == a + b';
      assert (a + b)[|a + b| - 1] == b[|b| - 1];
      NonIndexKeysAppend(a, b');
    }
  }

  lemma NonIndexKeysOne(k: string)
    ensures NonIndexKeys([k]) == if IsArrayIndex(k) then [] else [k]
  {
    assert [k][..0] == [];
  }

  /** s without repetitions, each element where it first occurs. */
  function FirstSeen(s: seq<string>): seq<string> {
    if s == [] then []
    else
      var p := s[..|s| - 1];
      if s[|s| - 1] in p then FirstSeen(p) else FirstSeen(p) + [s[|s| - 1]]
  }

  /** Adding the new own property k to an object whose keys, in property order, are `order`. */
  function Place(order: seq<string>, k: string): seq<string> {
    if !IsArrayIndex(k) then order + [k]
    else if order == [] || !IsArrayIndex(order[0]) || Num(k) < Num(order[0]) then [k] + order
    else [order[0]] + Place(order[1..], k)
  }

  /** Placing k adds k once and keeps every other key. */
  lemma {:induction false} PlaceMembers(order: seq<string>, k: string)
    ensures multiset(Place(order, k)) == multiset(order) + multiset{k}
    ensures forall x :: x in Place(order, k) <==> x in order || x == k
  {
    if IsArrayIndex(k) && !(order == [] || !IsArrayIndex(order[0]) || Num(k) < Num(order[0])) {
      assert order == [order[0]] + order[1..];
      PlaceMembers(order[1..], k);
    }
  }

  lemma ConsDistinct(x: string, t: seq<string>)
    requires Distinct(t) && x !in t
    ensures Distinct([x] + t)
  {
    var s := [x] + t;
    forall i, j | 0 <= i < j < |s| ensures s[i] != s[j] {
      assert s[j] == t[j - 1];
      if i > 0 { assert s[i] == t[i - 1]; }
    }
  }

  lemma SnocDistinct(t: seq<string>, x: string)
    requires Distinct(t) && x !in t
    ensures Distinct(t + [x])
  {
    var s := t + [x];
    forall i, j | 0 <= i < j < |s| ensures s[i] != s[j] {
      assert s[i] == t[i];
      if j < |t| { assert s[j] == t[j]; }
    }
  }

  lemma TailDistinct(s: seq<string>)
    requires Distinct(s) && s != []
    ensures Distinct(s[1..]) && s[0] !in s[1..]
  {
    var r := s[1..];
    forall i, j | 0 <= i < j < |r| ensures r[i] != r[j] { assert r[i] == s[i + 1] && r[j] == s[j + 1]; }
    forall j | 0 <= j < |r| ensures r[j] != s[0] { assert r[j] == s[j + 1]; }
  }

  /** A new key keeps the keys distinct. */
  lemma {:induction false} PlaceDistinct(order: seq<string>, k: string)
    requires Distinct(order) && k !in order
    ensures Distinct(Place(order, k))
  {
    if !IsArrayIndex(k) {
      SnocDistinct(order, k);
    } else if order == [] || !IsArrayIndex(order[0]) || Num(k) < Num(order[0]) {
      ConsDistinct(k, order);
    } else {
      var r := order[1..];
      TailDistinct(order);
      PlaceDistinct(r, k);
      PlaceMembers(r, k);
      ConsDistinct(order[0], Place(r, k));
    }
  }

  /** Placing a key keeps array-index keys first and ascending. */
  lemma {:induction false} PlaceOrder(order: seq<string>, k: string)
    requires PropertyOrder(order)
    ensures PropertyOrder(Place(order, k))
  {
    if !IsArrayIndex(k) {
      var t := order + [k];
      assert forall i :: 0 <= i < |order| ==> t[i] == order[i];
    } else if order == [] || !IsArrayIndex(order[0]) || Num(k) < Num(order[0]) {
      var t := [k] + order;
      forall i, j | 0 <= i < j < |t| && IsArrayIndex(t[j]) ensures IsArrayIndex(t[i]) && Num(t[i]) <= Num(t[j]) {
        assert t[j] == order[j - 1];
        if i > 0 {
          assert t[i] == order[i - 1];
        } else if j > 1 {
          assert IsArrayIndex(order[0]) && Num(order[0]) <= Num(order[j - 1]);
        }
      }
    } else {
      var r := order[1..];
      assert PropertyOrder(r) by {
        forall i, j | 0 <= i < j < |r| ensures r[i] == order[i + 1] && r[j] == order[j + 1] {}
      }
      PlaceOrder(r, k);
      PlaceMembers(r, k);
      PlaceAfterHead(order, k, Place(r, k));
    }
  }

  /** The head of a property order stays in front of the rest with k placed in it. */
  lemma PlaceAfterHead(order: seq<string>, k: string, t: seq<string>)
    requires order != [] && PropertyOrder(order) && PropertyOrder(t)
    requires IsArrayIndex(k) && IsArrayIndex(order[0]) && Num(order[0]) <= Num(k)
    requires forall x :: x in t <==> x in order[1..] || x == k
    ensures PropertyOrder([order[0]] + t)
  {
    var s := [order[0]] + t;
    forall j | 0 < j < |s| && IsArrayIndex(s[j]) ensures Num(s[0]) <= Num(s[j]) {
      assert s[j] == t[j - 1];
      assert s[j] in t;
      if s[j] != k {
        var m :| 0 <= m < |order[1..]| && order[1..][m] == s[j];
        assert order[m + 1] == s[j];
      }
    }
    forall i, j | 0 < i < j < |s| ensures s[i] == t[i - 1] && s[j] == t[j - 1] {}
  }

  /** A non-index key goes last; an array-index key leaves the non-index keys where they were. */
  lemma {:induction false} PlaceNonIndex(order: seq<string>, k: string)
    ensures NonIndexKeys(Place(order, k)) == NonIndexKeys(order) + NonIndexKeys([k])
  {
    NonIndexKeysOne(k);
    if !IsArrayIndex(k) {
      assert (order + [k])[..|order|] == order;
    } else if order == [] || !IsArrayIndex(order[0]) || Num(k) < Num(order[0]) {
      NonIndexKeysAppend([k], order);
    } else {
      var r := order[1..];
      assert order == [order[0]] + r;
      PlaceNonIndex(r, k);
      NonIndexKeysOne(order[0]);
      NonIndexKeysAppend([order[0]], Place(r, k));
      NonIndexKeysAppend([order[0]], r);
    }
  }
}
