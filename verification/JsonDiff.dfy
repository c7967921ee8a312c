/** The structural diff of two JSON values (`diff_json_leaf`, src/config/diff.rs):
    its changes are exactly the outermost differences of the two trees, and
    applying them, in any order, turns the left tree into the right one. */
module JsonDiff {
  import opened Wrappers
  import opened Seqs
  import opened Json

  datatype Kind = Added | Removed | Modified

  datatype Change = Change(path: string, kind: Kind, left: Option<Json>, right: Option<Json>)

  /** The keys that lead from the root to a place in a tree. */
  type Keys = seq<string>

  function Lookup(x: Option<Json>, keys: Keys): Option<Json>
    decreases |keys|
  {
    if keys == [] then x
    else match x
      case Some(Object(m)) => Lookup(Find(m, keys[0]), keys[1..])
      case _ => None
  }

  predicate BothObjects(a: Option<Json>, b: Option<Json>) {
    a.Some? && b.Some? && a.value.Object? && b.value.Object?
  }

  /** The trees differ at `keys`, not both are objects there, and both are objects
      all the way to it: an outermost difference. */
  predicate Differs(a: Option<Json>, b: Option<Json>, keys: Keys)
    decreases |keys|
  {
    if keys == [] then a != b && !BothObjects(a, b)
    else BothObjects(a, b)
         && Differs(Find(a.value.fields, keys[0]), Find(b.value.fields, keys[0]), keys[1..])
  }

  // ----- Paths as the report prints them -----

  function Child(path: string, k: string): string {
    if path == "" then k else path + "." + k
  }

  function Dotted(path: string, keys: Keys): string
    decreases |keys|
  {
    if keys == [] then path else Dotted(Child(path, keys[0]), keys[1..])
  }

  function KindOf(a: Option<Json>, b: Option<Json>): Kind {
    if a.None? then Added else if b.None? then Removed else Modified
  }

  /** The report's entry for the difference at `keys`. */
  function ChangeAt(path: string, a: Json, b: Json, keys: Keys): Change {
    var (l, r) := (Lookup(Some(a), keys), Lookup(Some(b), keys));
    Change(Dotted(path, keys), KindOf(l, r), l, r)
  }

  /** `out` holds one change per listed place, and the places are exactly the
      outermost differences, each once. */
  ghost predicate Reports(path: string, a: Json, b: Json, places: seq<Keys>, out: seq<Change>) {
    && |out| == |places|
    && (forall i :: 0 <= i < |places| ==> out[i] == ChangeAt(path, a, b, places[i]))
    && Exactly(a, b, places)
  }

  ghost predicate Exactly(a: Json, b: Json, places: seq<Keys>) {
    && (forall p :: p in places <==> Differs(Some(a), Some(b), p))
    && Distinct(places)
  }

  // ----- The code -----

  lemma {:induction false} EqualHasNoDifference(a: Option<Json>, keys: Keys)
    ensures !Differs(a, a, keys)
    decreases |keys|
  {
    if keys != [] && BothObjects(a, a) {
      EqualHasNoDifference(Find(a.value.fields, keys[0]), keys[1..]);
    }
  }

  function Under(k: string, places: seq<Keys>): (r: seq<Keys>)
    ensures |r| == |places| && forall i :: 0 <= i < |r| ==> r[i] == [k] + places[i]
  {
    seq(|places|, i requires 0 <= i < |places| => [k] + places[i])
  }

  /** The places of an object pair whose first key is among `done`. */
  ghost predicate ExactlyBelow(a: Json, b: Json, done: set<string>, places: seq<Keys>) {
    && (forall p :: p in places <==> p != [] && p[0] in done && Differs(Some(a), Some(b), p))
    && Distinct(places)
  }

  ghost predicate ReportsBelow(path: string, a: Json, b: Json, done: set<string>, places: seq<Keys>, out: seq<Change>) {
    && |out| == |places|
    && (forall i :: 0 <= i < |places| ==> out[i] == ChangeAt(path, a, b, places[i]))
    && ExactlyBelow(a, b, done, places)
  }

  /** The places found under one more key join those found so far. */
  lemma ExtendBelow(a: Json, b: Json, done: set<string>, places: seq<Keys>, k: string, sub: seq<Keys>)
    requires a.Object? && b.Object? && k !in done && ExactlyBelow(a, b, done, places)
    requires forall p :: p in sub <==> Differs(Find(a.fields, k), Find(b.fields, k), p)
    requires Distinct(sub)
    ensures ExactlyBelow(a, b, done + {k}, places + Under(k, sub))
  {
    var more := Under(k, sub);
    forall p
      ensures p in more <==> p != [] && p[0] == k && Differs(Some(a), Some(b), p)
    {
      if p in more {
        var i :| 0 <= i < |more| && more[i] == p;
        assert p[1..] == sub[i] && sub[i] in sub;
      }
      if p != [] && p[0] == k && Differs(Some(a), Some(b), p) {
        assert p[1..] in sub;
        var i :| 0 <= i < |sub| && sub[i] == p[1..];
        assert more[i] == [k] + p[1..] == p;
      }
    }
    UnderDistinct(k, sub);
    DistinctAppend(places, more);
  }

  lemma UnderDistinct(k: string, sub: seq<Keys>)
    requires Distinct(sub)
    ensures Distinct(Under(k, sub))
  {
    var more := Under(k, sub);
    forall i, j | 0 <= i < j < |more|
      ensures more[i] != more[j]
    {
      assert more[i][1..] == sub[i] && more[j][1..] == sub[j];
    }
  }

  /** The change at a place under `k` is the change of the two fields at the rest. */
  lemma ChangeUnder(path: string, a: Json, b: Json, k: string, p: Keys)
    requires a.Object? && b.Object? && k in a.fields && k in b.fields
    ensures ChangeAt(path, a, b, [k] + p) == ChangeAt(Child(path, k), a.fields[k], b.fields[k], p)
  {
    assert ([k] + p)[1..] == p && ([k] + p)[0] == k;
  }

  lemma OneSided(a: Option<Json>, b: Option<Json>, p: Keys)
    requires a.None? != b.None?
    ensures Differs(a, b, p) <==> p == []
  {
  }

  lemma OneKey(path: string, a: Json, b: Json, k: string)
    requires a.Object? && b.Object?
    ensures var (l, r) := (Find(a.fields, k), Find(b.fields, k));
            ChangeAt(path, a, b, [k]) == Change(Child(path, k), KindOf(l, r), l, r)
  {
    assert [k][1..] == [];
    assert Lookup(Find(a.fields, k), []) == Find(a.fields, k);
    assert Lookup(Find(b.fields, k), []) == Find(b.fields, k);
    assert Dotted(Child(path, k), []) == Child(path, k);
  }

  method DiffJsonLeaf(path: string, a: Json, b: Json) returns (out: seq<Change>, ghost places: seq<Keys>)
    ensures Reports(path, a, b, places, out)
    decreases a
  {
    if a == b {
      forall p
        ensures !Differs(Some(a), Some(b), p)
      {
        EqualHasNoDifference(Some(a), p);
      }
      return [], [];
    }
    if a.Object? && b.Object? {
      out, places := DiffFields(path, a, b);
      forall p | Differs(Some(a), Some(b), p)
        ensures p != [] && p[0] in a.fields.Keys + b.fields.Keys
      {
        if p[0] !in a.fields && p[0] !in b.fields {
          EqualHasNoDifference(None, p[1..]);
          assert false;
        }
      }
    } else {
      out, places := [Change(path, Modified, Some(a), Some(b))], [[]];
      assert ChangeAt(path, a, b, []) == out[0];
      assert forall p :: p in places <==> p == [];
    }
  }

  lemma EmptyBelow(path: string, a: Json, b: Json)
    ensures ReportsBelow(path, a, b, {}, [], [])
  {
  }

  lemma ReportsExtend(path: string, a: Json, b: Json, done: set<string>, places: seq<Keys>, out: seq<Change>,
                      k: string, sub: seq<Keys>, more: seq<Change>)
    requires a.Object? && b.Object? && k !in done && ReportsBelow(path, a, b, done, places, out)
    requires |more| == |sub| && forall i :: 0 <= i < |sub| ==> more[i] == ChangeAt(path, a, b, [k] + sub[i])
    requires forall p :: p in sub <==> Differs(Find(a.fields, k), Find(b.fields, k), p)
    requires Distinct(sub)
    ensures ReportsBelow(path, a, b, done + {k}, places + Under(k, sub), out + more)
  {
    hide ChangeAt, Differs, ExactlyBelow, Distinct;
    ExtendBelow(a, b, done, places, k, sub);
  }

  /** The loop over the union of the keys, in whatever order the set yields them. */
  method DiffFields(path: string, a: Json, b: Json) returns (out: seq<Change>, ghost places: seq<Keys>)
    requires a.Object? && b.Object?
    ensures ReportsBelow(path, a, b, a.fields.Keys + b.fields.Keys, places, out)
    decreases a, 0
  {
    hide ReportsBelow, ChangeAt, Differs, Distinct;
    var todo := a.fields.Keys + b.fields.Keys;
    out, places := [], [];
    ghost var done: set<string> := {};
    EmptyBelow(path, a, b);
    while todo != {}
      invariant done + todo == a.fields.Keys + b.fields.Keys && done !! todo
      invariant ReportsBelow(path, a, b, done, places, out)
      decreases todo
    {
      var k :| k in todo;
      var more;
      ghost var sub;
      more, sub := DiffField(path, a, b, k);
      ReportsExtend(path, a, b, done, places, out, k, sub, more);
      out, places := out + more, places + Under(k, sub);
      done, todo := done + {k}, todo - {k};
    }
    assert done == a.fields.Keys + b.fields.Keys;
  }

  /** One key of the loop. */
  method DiffField(path: string, a: Json, b: Json, k: string) returns (out: seq<Change>, ghost sub: seq<Keys>)
    requires a.Object? && b.Object? && (k in a.fields || k in b.fields)
    ensures |out| == |sub| && forall i :: 0 <= i < |sub| ==> out[i] == ChangeAt(path, a, b, [k] + sub[i])
    ensures forall p :: p in sub <==> Differs(Find(a.fields, k), Find(b.fields, k), p)
    ensures Distinct(sub)
    decreases a, 0, k
  {
    var p := Child(path, k);
    if k in a.fields && k in b.fields {
      out, sub := DiffJsonLeaf(p, a.fields[k], b.fields[k]);
      forall i | 0 <= i < |sub|
        ensures out[i] == ChangeAt(path, a, b, [k] + sub[i])
      {
        ChangeUnder(path, a, b, k, sub[i]);
      }
    } else {
      if k in b.fields {
        out := [Change(p, Added, None, Some(b.fields[k]))];
      } else {
        out := [Change(p, Removed, Some(a.fields[k]), None)];
      }
      sub := [[]];
      OneKey(path, a, b, k);
      assert [k] + sub[0] == [k];
      forall q
        ensures q in sub <==> Differs(Find(a.fields, k), Find(b.fields, k), q)
      {
        OneSided(Find(a.fields, k), Find(b.fields, k), q);
      }
    }
  }

  // ----- The changes are a correct patch -----

  /** Puts `v` at `keys`, or removes what is there if `v` is `None`. */
  function Put(x: Option<Json>, keys: Keys, v: Option<Json>): Option<Json>
    decreases |keys|
  {
    if keys == [] then v
    else match x
      case Some(Object(m)) =>
        var r := Put(Find(m, keys[0]), keys[1..], v);
        Some(Object(if r.Some? then m[keys[0] := r.value] else m - {keys[0]}))
      case _ => x
  }

  /** Applies reported changes, in order: each puts its right-hand side at its place. */
  function Apply(x: Option<Json>, places: seq<Keys>, out: seq<Change>): Option<Json>
    requires |places| == |out|
    decreases |places|
  {
    if places == [] then x else Apply(Put(x, places[0], out[0].right), places[1..], out[1..])
  }

  lemma PutField(x: Json, keys: Keys, v: Option<Json>, k: string)
    requires x.Object? && keys != []
    ensures var y := Put(Some(x), keys, v);
            && y.Some? && y.value.Object?
            && Find(y.value.fields, k)
               == if k == keys[0] then Put(Find(x.fields, k), keys[1..], v) else Find(x.fields, k)
  {
  }

  /** Applying one change removes that difference and no other. */
  lemma {:induction false} PutRemovesDifference(x: Option<Json>, b: Option<Json>, p: Keys, q: Keys)
    requires Differs(x, b, p)
    ensures Differs(Put(x, p, Lookup(b, p)), b, q) <==> Differs(x, b, q) && q != p
    decreases |p|
  {
    hide Put, Lookup;
    if p == [] {
      PutAtRoot(x, b);
      EqualHasNoDifference(b, q);
    } else {
      LookupField(b, p);
      PutField(x.value, p, Lookup(b, p), p[0]);
      if q != [] {
        PutField(x.value, p, Lookup(b, p), q[0]);
        if q[0] == p[0] {
          PutRemovesDifference(Find(x.value.fields, p[0]), Find(b.value.fields, p[0]), p[1..], q[1..]);
          assert q == [q[0]] + q[1..] && p == [p[0]] + p[1..];
        }
      }
    }
  }

  lemma PutAtRoot(x: Option<Json>, b: Option<Json>)
    ensures Put(x, [], Lookup(b, [])) == b
  {
  }

  lemma LookupField(b: Option<Json>, p: Keys)
    requires p != [] && b.Some? && b.value.Object?
    ensures Lookup(b, p) == Lookup(Find(b.value.fields, p[0]), p[1..])
  {
  }

  /** Different trees have an outermost difference. */
  lemma {:induction false} DifferenceExists(a: Json, b: Json) returns (p: Keys)
    requires a != b
    ensures Differs(Some(a), Some(b), p)
    decreases a
  {
    if !a.Object? || !b.Object? {
      return [];
    }
    var m, n := a.fields, b.fields;
    var k :| Find(m, k) != Find(n, k) by {
      if forall k :: Find(m, k) == Find(n, k) {
        SameFields(m, n);
        assert false;
      }
    }
    var rest: Keys := [];
    assert Find(m, k) != Find(n, k);
    if k in m && k in n {
      assert m[k] != n[k];
      rest := DifferenceExists(m[k], n[k]);
    }
    p := [k] + rest;
    assert p[0] == k && p[1..] == rest;
  }

  lemma OptionDifference(a: Option<Json>, b: Option<Json>) returns (p: Keys)
    requires a != b
    ensures Differs(a, b, p)
  {
    if a.Some? && b.Some? {
      p := DifferenceExists(a.value, b.value);
    } else {
      p := [];
    }
  }

  lemma SameFields(m: map<string, Json>, n: map<string, Json>)
    requires forall k :: Find(m, k) == Find(n, k)
    ensures m == n
  {
    forall k
      ensures k in m <==> k in n
    {
      assert Find(m, k) == Find(n, k);
    }
    forall k | k in m
      ensures m[k] == n[k]
    {
      assert Find(m, k) == Find(n, k);
    }
  }

  /** If the changes carry the right-hand sides of exactly the differences, applying
      them to the left tree, in whatever order they come, gives the right tree. */
  lemma {:induction false} ApplyReaches(x: Option<Json>, b: Option<Json>, places: seq<Keys>, out: seq<Change>)
    requires (forall p :: p in places <==> Differs(x, b, p)) && Distinct(places)
    requires |out| == |places| && forall i :: 0 <= i < |out| ==> out[i].right == Lookup(b, places[i])
    ensures Apply(x, places, out) == b
    decreases |places|
  {
    hide Put, Lookup, Differs;
    if places == [] {
      if x != b {
        var p := OptionDifference(x, b);
        assert false;
      }
    } else {
      var p := places[0];
      assert p in places;
      var y := Put(x, p, Lookup(b, p));
      forall q
        ensures q in places[1..] <==> Differs(y, b, q)
      {
        PutRemovesDifference(x, b, p, q);
        assert q in places <==> q == p || q in places[1..];
        assert forall i :: 0 < i < |places| ==> places[i] != p;
      }
      ApplyReaches(y, b, places[1..], out[1..]);
    }
  }

  /** The report is a patch: applying its changes to the left tree gives the right
      tree. */
  lemma ChangesArePatch(path: string, a: Json, b: Json, places: seq<Keys>, out: seq<Change>)
    requires Reports(path, a, b, places, out)
    ensures Apply(Some(a), places, out) == Some(b)
  {
    hide Differs, Lookup, Apply;
    forall i | 0 <= i < |out|
      ensures out[i].right == Lookup(Some(b), places[i])
    {
      assert out[i] == ChangeAt(path, a, b, places[i]);
    }
    ApplyReaches(Some(a), Some(b), places, out);
  }

  /** Nothing is reported exactly when the trees are equal. */
  lemma EmptyDiffIffEqual(path: string, a: Json, b: Json, places: seq<Keys>, out: seq<Change>)
    requires Reports(path, a, b, places, out)
    ensures out == [] <==> a == b
  {
    ChangesArePatch(path, a, b, places, out);
    if a == b && places != [] {
      EqualHasNoDifference(Some(a), places[0]);
      HeadIn(places);
      assert false;
    }
  }

  /** Swapping the arguments keeps the places and swaps the sides and kinds. */
  lemma {:induction false} SwapKeepsPlaces(a: Option<Json>, b: Option<Json>, keys: Keys)
    ensures Differs(a, b, keys) <==> Differs(b, a, keys)
    decreases |keys|
  {
    if keys != [] && BothObjects(a, b) {
      SwapKeepsPlaces(Find(a.value.fields, keys[0]), Find(b.value.fields, keys[0]), keys[1..]);
    }
  }

  function Swapped(c: Change): Change {
    Change(c.path, match c.kind case Added => Removed case Removed => Added case Modified => Modified, c.right, c.left)
  }

  /** What the kinds mean: an added place is missing on the left, a removed one on
      the right, and a modified one is on both sides with different values. */
  lemma KindsTellSides(path: string, a: Json, b: Json, places: seq<Keys>, out: seq<Change>, i: nat)
    requires Reports(path, a, b, places, out) && i < |out|
    ensures out[i].kind.Added? <==> Lookup(Some(a), places[i]).None?
    ensures out[i].kind.Removed? <==> Lookup(Some(b), places[i]).None?
    ensures out[i].left == Lookup(Some(a), places[i]) && out[i].right == Lookup(Some(b), places[i])
    ensures out[i].left != out[i].right
  {
    assert places[i] in places;
    SidesDiffer(Some(a), Some(b), places[i]);
    assert out[i] == ChangeAt(path, a, b, places[i]);
  }

  lemma SwapMirrorsDiff(path: string, a: Json, b: Json, places: seq<Keys>, out: seq<Change>, keys: Keys)
    requires Reports(path, a, b, places, out) && Differs(Some(b), Some(a), keys)
    ensures exists i :: 0 <= i < |out| && places[i] == keys && ChangeAt(path, b, a, keys) == Swapped(out[i])
  {
    SwapKeepsPlaces(Some(a), Some(b), keys);
    assert keys in places;
    var i :| 0 <= i < |places| && places[i] == keys;
    SidesDiffer(Some(a), Some(b), keys);
    assert out[i] == ChangeAt(path, a, b, keys);
  }

  function AllSwapped(out: seq<Change>): (r: seq<Change>)
    ensures |r| == |out| && forall i :: 0 <= i < |r| ==> r[i] == Swapped(out[i])
  {
    seq(|out|, i requires 0 <= i < |out| => Swapped(out[i]))
  }

  /** Swapping every change of a report gives a report of the swapped arguments, so
      the swapped changes lead back from the right tree to the left one. */
  lemma SwappedIsUndo(path: string, a: Json, b: Json, places: seq<Keys>, out: seq<Change>)
    requires Reports(path, a, b, places, out)
    ensures Reports(path, b, a, places, AllSwapped(out))
    ensures Apply(Some(b), places, AllSwapped(out)) == Some(a)
  {
    hide Differs, Lookup, Apply;
    forall p
      ensures p in places <==> Differs(Some(b), Some(a), p)
    {
      SwapKeepsPlaces(Some(a), Some(b), p);
    }
    forall i | 0 <= i < |out|
      ensures AllSwapped(out)[i] == ChangeAt(path, b, a, places[i])
    {
      assert places[i] in places;
      SidesDiffer(Some(a), Some(b), places[i]);
    }
    ChangesArePatch(path, b, a, places, AllSwapped(out));
  }

  /** The two sides of a change are never the same. */
  lemma {:induction false} SidesDiffer(a: Option<Json>, b: Option<Json>, keys: Keys)
    requires Differs(a, b, keys)
    ensures Lookup(a, keys) != Lookup(b, keys)
    decreases |keys|
  {
    if keys != [] {
      SidesDiffer(Find(a.value.fields, keys[0]), Find(b.value.fields, keys[0]), keys[1..]);
    }
  }

  // ----- The places are apart from each other -----

  /** No place is a proper prefix of another. */
  lemma {:induction false} PlacesAreApart(a: Option<Json>, b: Option<Json>, p: Keys, q: Keys)
    requires Differs(a, b, p) && Differs(a, b, q) && p <= q
    ensures p == q
    decreases |p|
  {
    if p != [] {
      PlacesAreApart(Find(a.value.fields, p[0]), Find(b.value.fields, p[0]), p[1..], q[1..]);
    } else if q != [] {
      assert false;
    }
  }

  predicate DotFree(keys: Keys) {
    forall i :: 0 <= i < |keys| ==> '.' !in keys[i]
  }

  /** What follows the root in a printed path. */
  function Tail(keys: Keys): string
    decreases |keys|
  {
    if keys == [] then "" else "." + keys[0] + Tail(keys[1..])
  }

  lemma {:induction false} DottedIsTail(path: string, keys: Keys)
    requires path != ""
    ensures Dotted(path, keys) == path + Tail(keys)
    decreases |keys|
  {
    if keys == [] {
      assert path + "" == path;
    } else {
      DottedIsTail(Child(path, keys[0]), keys[1..]);
      assert (path + "." + keys[0]) + Tail(keys[1..]) == path + ("." + keys[0] + Tail(keys[1..]));
    }
  }

  /** From an unnamed root a path starts with its first key. */
  lemma DottedFromRoot(keys: Keys)
    requires keys != [] && keys[0] != ""
    ensures Dotted("", keys) == keys[0] + Tail(keys[1..])
  {
    DottedIsTail(keys[0], keys[1..]);
  }

  /** A string is empty or goes on with a dot. */
  predicate AtDot(s: string) {
    s == "" || s[0] == '.'
  }

  /** A dot-free key ends where the next dot is. */
  lemma KeyEndsAtDot(k: string, x: string, l: string, y: string)
    requires '.' !in k && '.' !in l && AtDot(x) && AtDot(y) && k + x == l + y
    ensures k == l && x == y
  {
    var s := k + x;
    assert forall i :: 0 <= i < |k| ==> s[i] == k[i];
    assert forall i :: 0 <= i < |l| ==> s[i] == l[i];
    assert x != "" ==> s[|k|] == x[0];
    assert y != "" ==> s[|l|] == y[0];
    assert |k| == |l|;
    assert k == s[..|k|] == l && x == s[|k|..] == y;
  }

  lemma {:induction false} TailPrefix(p: Keys, q: Keys, rest: string)
    requires DotFree(p) && DotFree(q) && AtDot(rest) && Tail(q) == Tail(p) + rest
    ensures p <= q
    decreases |p|
  {
    if p != [] && q != [] {
      var x, y := Tail(p[1..]) + rest, Tail(q[1..]);
      assert Tail(q)[1..] == q[0] + y;
      assert (Tail(p) + rest)[1..] == p[0] + x;
      KeyEndsAtDot(q[0], y, p[0], x);
      TailPrefix(p[1..], q[1..], rest);
      assert p == [p[0]] + p[1..] && q == [q[0]] + q[1..];
    }
  }

  /** With dot-free keys the printed paths of a report are apart as well: none is
      another or its dotted prefix. */
  lemma PrintedPathsAreApart(path: string, a: Option<Json>, b: Option<Json>, p: Keys, q: Keys, rest: string)
    requires path != "" && Differs(a, b, p) && Differs(a, b, q) && DotFree(p) && DotFree(q)
    requires AtDot(rest) && Dotted(path, q) == Dotted(path, p) + rest
    ensures p == q
  {
    hide Tail, Dotted, Differs, AtDot, DotFree;
    DottedIsTail(path, p);
    DottedIsTail(path, q);
    Associate(path, Tail(p), rest);
    CancelPrefix(path, Tail(q), Tail(p) + rest);
    TailPrefix(p, q, rest);
    PlacesAreApart(a, b, p, q);
  }

  /** Every key that holds a dot can make two changes print the same path: next to
      it, nest a field under what stands before and after the dot. */
  lemma DotsCollide(path: string, key: string, one: Json, two: Json) returns (a: Json, b: Json, p: Keys, q: Keys)
    requires path != "" && '.' in key && one != two && !one.Object?
    ensures p == [key] && p != q && Differs(Some(a), Some(b), p) && Differs(Some(a), Some(b), q)
    ensures Dotted(path, p) == Dotted(path, q)
  {
    var i :| 0 <= i < |key| && key[i] == '.';
    var x, y := key[..i], key[i + 1..];
    a := Object(map[key := one, x := Object(map[y := one])]);
    b := Object(map[key := two, x := Object(map[y := two])]);
    p, q := [key], [x, y];
    assert p[1..] == [] && q[1..] == [y] && [y][1..] == [] && |x| < |key|;
    DottedIsTail(path, p);
    DottedIsTail(path, q);
    TailOfOne(key);
    TailOfOne(y);
    assert key == x + "." + y;
    assert Tail(q) == "." + x + ("." + y) == "." + key;
  }

  lemma TailOfOne(key: string)
    ensures Tail([key]) == "." + key
  {
    assert Tail([key]) == "." + key + Tail([]);
  }
}
