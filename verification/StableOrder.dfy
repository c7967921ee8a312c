/** `sort_by_key`: the stable sort that the router, the strict checks and the
    registry resolver all call.  A sort is given by the order in which it lists
    the positions of its input. */
module StableOrder {

  function KeyAt(keys: seq<nat>, i: nat): nat {
    if i < |keys| then keys[i] else 0
  }

  /** Position `i` sorts ahead of position `j`: smaller key, ties by position. */
  predicate Before(keys: seq<nat>, i: nat, j: nat) {
    KeyAt(keys, i) < KeyAt(keys, j) || (KeyAt(keys, i) == KeyAt(keys, j) && i < j)
  }

  /** `order` lists exactly the positions of `keys`, each ahead of all later ones. */
  ghost predicate IsStableOrder(keys: seq<nat>, order: seq<nat>) {
    && (forall k :: 0 <= k < |order| ==> order[k] < |keys|)
    && (forall i :: 0 <= i < |keys| ==> i in order)
    && (forall a, b :: 0 <= a < b < |order| ==> Before(keys, order[a], order[b]))
  }

  function Insert(keys: seq<nat>, order: seq<nat>, i: nat): (r: seq<nat>)
    ensures |r| == |order| + 1
  {
    if order == [] || Before(keys, i, order[0]) then [i] + order
    else [order[0]] + Insert(keys, order[1..], i)
  }

  /** The positions of the first `n` keys in sorted order. */
  function SortedPrefix(keys: seq<nat>, n: nat): (r: seq<nat>)
    ensures |r| == n
  {
    if n == 0 then [] else Insert(keys, SortedPrefix(keys, n - 1), n - 1)
  }

  /** What `sort_by_key` returns, as positions of its input. */
  function SortedIndices(keys: seq<nat>): (r: seq<nat>)
    ensures |r| == |keys|
    ensures forall k :: 0 <= k < |r| ==> r[k] < |keys|
  {
    forall k: nat | k < |keys|
      ensures SortedPrefix(keys, |keys|)[k] < |keys|
    {
      PrefixHas(keys, |keys|, SortedPrefix(keys, |keys|)[k]);
    }
    SortedPrefix(keys, |keys|)
  }

  lemma {:induction false} InsertHas(keys: seq<nat>, order: seq<nat>, i: nat, x: nat)
    ensures x in Insert(keys, order, i) <==> x == i || x in order
  {
    if order != [] && !Before(keys, i, order[0]) {
      InsertHas(keys, order[1..], i, x);
      assert x in order <==> x == order[0] || x in order[1..];
    }
  }

  lemma {:induction false} PrefixHas(keys: seq<nat>, n: nat, x: nat)
    ensures x in SortedPrefix(keys, n) <==> x < n
  {
    if n > 0 {
      PrefixHas(keys, n - 1, x);
      InsertHas(keys, SortedPrefix(keys, n - 1), n - 1, x);
    }
  }

  predicate Ahead(keys: seq<nat>, x: nat, s: seq<nat>) {
    s == [] || (Before(keys, x, s[0]) && Ahead(keys, x, s[1..]))
  }

  predicate Sorted(keys: seq<nat>, s: seq<nat>) {
    s == [] || (Ahead(keys, s[0], s[1..]) && Sorted(keys, s[1..]))
  }

  lemma {:induction false} AheadOfAll(keys: seq<nat>, x: nat, y: nat, s: seq<nat>)
    requires Before(keys, x, y) && Ahead(keys, y, s)
    ensures Ahead(keys, x, s)
  {
    if s != [] {
      AheadOfAll(keys, x, y, s[1..]);
    }
  }

  lemma {:induction false} InsertAhead(keys: seq<nat>, x: nat, s: seq<nat>, i: nat)
    requires Ahead(keys, x, s) && Before(keys, x, i)
    ensures Ahead(keys, x, Insert(keys, s, i))
  {
    if s != [] && !Before(keys, i, s[0]) {
      InsertAhead(keys, x, s[1..], i);
    }
  }

  lemma {:induction false} InsertSorted(keys: seq<nat>, s: seq<nat>, i: nat)
    requires Sorted(keys, s) && i !in s
    ensures Sorted(keys, Insert(keys, s, i))
  {
    if s == [] {
    } else if Before(keys, i, s[0]) {
      AheadOfAll(keys, i, s[0], s[1..]);
      assert ([i] + s)[1..] == s;
    } else {
      InsertSorted(keys, s[1..], i);
      InsertAhead(keys, s[0], s[1..], i);
      assert ([s[0]] + Insert(keys, s[1..], i))[1..] == Insert(keys, s[1..], i);
    }
  }

  lemma {:induction false} PrefixSorted(keys: seq<nat>, n: nat)
    ensures Sorted(keys, SortedPrefix(keys, n))
  {
    if n > 0 {
      PrefixSorted(keys, n - 1);
      PrefixHas(keys, n - 1, n - 1);
      InsertSorted(keys, SortedPrefix(keys, n - 1), n - 1);
    }
  }

  lemma {:induction false} AheadAt(keys: seq<nat>, x: nat, s: seq<nat>, b: nat)
    requires Ahead(keys, x, s) && b < |s|
    ensures Before(keys, x, s[b])
  {
    if b > 0 {
      AheadAt(keys, x, s[1..], b - 1);
    }
  }

  lemma {:induction false} SortedAt(keys: seq<nat>, s: seq<nat>, a: nat, b: nat)
    requires Sorted(keys, s) && a < b < |s|
    ensures Before(keys, s[a], s[b])
  {
    if a == 0 {
      AheadAt(keys, s[0], s[1..], b - 1);
    } else {
      SortedAt(keys, s[1..], a - 1, b - 1);
    }
  }

  /** The sort is stable, loses nothing and lists nothing twice. */
  lemma SortedIndicesStable(keys: seq<nat>)
    ensures IsStableOrder(keys, SortedIndices(keys))
  {
    var r := SortedIndices(keys);
    forall i: nat | i < |keys|
      ensures i in r
    {
      PrefixHas(keys, |keys|, i);
    }
    PrefixSorted(keys, |keys|);
    forall a: nat, b: nat | a < b < |r|
      ensures Before(keys, r[a], r[b])
    {
      SortedAt(keys, r, a, b);
    }
  }

  lemma {:induction false} StableOrderAgrees(keys: seq<nat>, o: seq<nat>, p: seq<nat>, n: nat)
    requires IsStableOrder(keys, o) && IsStableOrder(keys, p) && n <= |o|
    ensures n <= |p| && o[..n] == p[..n]
  {
    if n > 0 {
      var k := n - 1;
      StableOrderAgrees(keys, o, p, k);
      assert forall j :: 0 <= j < k ==> o[j] == o[..k][j] == p[..k][j] == p[j];
      assert o[k] in p;
      var q :| 0 <= q < |p| && p[q] == o[k];
      assert k <= q;
      assert p[k] in o;
      var m :| 0 <= m < |o| && o[m] == p[k];
      assert k <= m;
      assert o[k] == p[k];
    }
  }

  /** There is only one stable order, so any stable sort gives the same result. */
  lemma StableOrderUnique(keys: seq<nat>, o: seq<nat>, p: seq<nat>)
    requires IsStableOrder(keys, o) && IsStableOrder(keys, p)
    ensures o == p
  {
    StableOrderAgrees(keys, o, p, |o|);
    StableOrderAgrees(keys, p, o, |p|);
  }

  // ----- One key at a time -----

  /** The listed positions whose key is `key`, in order. */
  function WithKey(keys: seq<nat>, order: seq<nat>, key: nat): seq<nat> {
    if order == [] then []
    else (if KeyAt(keys, order[0]) == key then [order[0]] else []) + WithKey(keys, order[1..], key)
  }

  /** The positions below `n` whose key is `key`, ascending. */
  function PositionsOf(keys: seq<nat>, n: nat, key: nat): seq<nat> {
    if n == 0 then []
    else PositionsOf(keys, n - 1, key) + (if KeyAt(keys, n - 1) == key then [n - 1] else [])
  }

  predicate AllBelow(s: seq<nat>, n: nat) {
    forall k :: 0 <= k < |s| ==> s[k] < n
  }

  lemma AheadOfRest(keys: seq<nat>, x: nat, s: seq<nat>)
    requires Ahead(keys, x, s) && s != []
    ensures Ahead(keys, x, s[1..])
  {
  }

  lemma {:induction false} NoneAhead(keys: seq<nat>, i: nat, s: seq<nat>)
    requires Ahead(keys, i, s) && AllBelow(s, i)
    ensures WithKey(keys, s, KeyAt(keys, i)) == []
  {
    if s != [] {
      AheadAt(keys, i, s, 0);
      AheadOfRest(keys, i, s);
      NoneAhead(keys, i, s[1..]);
    }
  }

  lemma {:induction false} InsertIsLast(keys: seq<nat>, s: seq<nat>, i: nat, key: nat)
    requires Sorted(keys, s) && AllBelow(s, i)
    ensures WithKey(keys, Insert(keys, s, i), key)
            == WithKey(keys, s, key) + (if KeyAt(keys, i) == key then [i] else [])
  {
    if s == [] {
      assert [i][1..] == [];
    } else if Before(keys, i, s[0]) {
      AheadOfAll(keys, i, s[0], s[1..]);
      NoneAhead(keys, i, s);
      assert ([i] + s)[1..] == s;
    } else {
      InsertIsLast(keys, s[1..], i, key);
      assert ([s[0]] + Insert(keys, s[1..], i))[1..] == Insert(keys, s[1..], i);
    }
  }

  /** Under each key the sort lists the positions as they came. */
  lemma {:induction false} PrefixWithKey(keys: seq<nat>, n: nat, key: nat)
    ensures WithKey(keys, SortedPrefix(keys, n), key) == PositionsOf(keys, n, key)
  {
    if n > 0 {
      PrefixWithKey(keys, n - 1, key);
      PrefixSorted(keys, n - 1);
      var prefix := SortedPrefix(keys, n - 1);
      forall k | 0 <= k < |prefix|
        ensures prefix[k] < n - 1
      {
        PrefixHas(keys, n - 1, prefix[k]);
      }
      InsertIsLast(keys, prefix, n - 1, key);
    }
  }
}
