/**
 Adoption into a factory (internal/fixtures/adopter.go): what is left of a tree after its factory's prototype
 is subtracted, with the tree's values put back at the identities the prototype covers.
 */
module PinnedDelta {
  import opened Wrappers
  import opened FixtureTrees
  import opened Paths
  import opened SharedTree

  /** The delta with the tree's values at those of the first n identities where it says nothing. */
  function Repinned(d: Tree, tree: Tree, ids: seq<string>, n: nat): Option<Tree>
    requires n <= |ids|
  {
    if n == 0 then Some(d)
    else
      match Repinned(d, tree, ids, n - 1)
      case None => None
      case Some(e) =>
        var q := ids[n - 1];
        if MustGet(tree, q) != Null && MustGet(e, q) == Null then SetAt(e, q, MustGet(tree, q)) else Some(e)
  }

  /** A tree's fixture, of a factory: none where an identity cannot be put back. */
  function Extracted(tree: Tree, prototype: Tree, ids: seq<string>): Option<Tree> {
    Repinned(Subtract(tree, prototype), tree, ids, |ids|)
  }

  // ------------------------------------------------- what putting back may add

  /** A tree says part of what another does, where neither has a list. */
  predicate Part(d: Tree, t: Tree)
    decreases d
  {
    d == t || (d.List? && t.List?)
    || (d.Object? && t.Object? && forall k <- d.fields :: k in t.fields && Part(d.fields[k], t.fields[k]))
  }

  /** More of a tree's own values are added; within lists, when rows may change, but never in one that is its own. */
  predicate Adds(rows: bool, d: Tree, r: Tree, t: Tree)
    decreases r
  {
    r == d || (rows && d.List? && r.List? && t.List? && d != t)
    || (d.Object? && r.Object? && t.Object? && d.fields.Keys <= r.fields.Keys
        && forall k <- r.fields :: k in t.fields && AddsAt(rows, d, r, t, k))
  }

  predicate AddsAt(rows: bool, d: Tree, r: Tree, t: Tree, k: string)
    requires d.Object? && r.Object? && t.Object? && k in r.fields && k in t.fields
    decreases r, 0
  {
    if k in d.fields then Adds(rows, d.fields[k], r.fields[k], t.fields[k]) else Within(r.fields[k], t.fields[k])
  }

  lemma {:induction false} SubtractPart(tree: Tree, prototype: Tree)
    ensures Part(Subtract(tree, prototype), tree)
    decreases tree
  {
    if tree.Object? && prototype.Object? {
      var d := Subtract(tree, prototype);
      forall k | k in d.fields
        ensures k in tree.fields && Part(d.fields[k], tree.fields[k])
      {
        assert d.fields[k] == Left(tree, prototype, k).value;
        if k in prototype.fields { SubtractPart(tree.fields[k], prototype.fields[k]); }
      }
    }
  }

  lemma {:induction false} AddsWithin(rows: bool, d: Tree, r: Tree, t: Tree)
    requires Within(d, t) && Adds(rows, d, r, t)
    ensures Within(r, t)
    decreases r
  {
    if r != d && d.Object? {
      forall k | k in r.fields
        ensures k in t.fields && Within(r.fields[k], t.fields[k])
      {
        assert AddsAt(rows, d, r, t, k);
        if k in d.fields {
          WithinField(d, t, k);
          AddsWithin(rows, d.fields[k], r.fields[k], t.fields[k]);
        }
      }
    }
  }

  lemma {:induction false} AddsNothing(rows: bool, r: Tree, t: Tree)
    requires Adds(rows, t, r, t)
    ensures r == t
    decreases r
  {
    if t.Object? && r.Object? {
      forall k | k in r.fields
        ensures k in t.fields && r.fields[k] == t.fields[k]
      {
        if r != t {
          assert AddsAt(rows, t, r, t, k);
          AddsNothing(rows, r.fields[k], t.fields[k]);
        }
      }
      assert r.fields == t.fields;
    }
  }

  lemma {:induction false} AddsThen(rows: bool, a: Tree, b: Tree, c: Tree, t: Tree)
    requires Adds(rows, a, b, t) && Adds(rows, b, c, t)
    ensures Adds(rows, a, c, t)
    decreases c
  {
    if a != b && b != c && a.Object? {
      forall k | k in c.fields
        ensures k in t.fields && AddsAt(rows, a, c, t, k)
      {
        assert AddsAt(rows, b, c, t, k);
        if k in b.fields {
          assert AddsAt(rows, a, b, t, k);
          if k in a.fields {
            AddsThen(rows, a.fields[k], b.fields[k], c.fields[k], t.fields[k]);
          } else {
            AddsWithin(rows, b.fields[k], c.fields[k], t.fields[k]);
          }
        }
      }
    }
  }

  /** One field is another: the rest stays. */
  lemma AddsField(rows: bool, d: Tree, t: Tree, k: string, v: Tree)
    requires d.Object? && t.Object? && k in t.fields && Part(d, t) && Part(v, t.fields[k])
    requires if k in d.fields then Adds(rows, d.fields[k], v, t.fields[k]) else Within(v, t.fields[k])
    ensures var r := Object(d.fields[k := v]); Adds(rows, d, r, t) && Part(r, t)
  {
    var r := Object(d.fields[k := v]);
    forall j | j in r.fields
      ensures j in t.fields && AddsAt(rows, d, r, t, j) && Part(r.fields[j], t.fields[j])
    {
      if j != k { PartField(d, t, j); }
    }
  }

  lemma PartField(d: Tree, t: Tree, k: string)
    requires Part(d, t) && d.Object? && k in d.fields
    ensures t.Object? && k in t.fields && Part(d.fields[k], t.fields[k])
  {
  }

  lemma AddsFromNothing(rows: bool, r: Tree, t: Tree)
    requires t.Object? && r.Object?
    ensures Adds(rows, Object(map[]), r, t) <==> Within(r, t)
  {
    if Within(r, t) {
      forall k | k in r.fields
        ensures k in t.fields && AddsAt(rows, Object(map[]), r, t, k)
      {
        WithinField(r, t, k);
      }
    } else {
      if k: string :| k in r.fields && !(k in t.fields && Within(r.fields[k], t.fields[k])) {
        assert k in t.fields ==> !AddsAt(rows, Object(map[]), r, t, k);
      }
    }
  }

  /** Putting back a tree's value where the delta says nothing. */
  lemma {:induction false} SetAdds(rows: bool, d: Tree, path: Path, t: Tree, v: Tree)
    requires path != [] && d.Object? && Part(d, t) && PathGet(t, path) == Some(v) && v != Null
    requires PathGet(d, path) in {None, Some(Null)} && (rows || NoIndex(path))
    ensures var r := PathSet(d, path, v);
      (r.Some? ==> r.value.Object? && Adds(rows, d, r.value, t) && Part(r.value, t)) && (NoIndex(path) ==> r.Some?)
    decreases |path|
  {
    var s := path[0];
    var k := s.name;
    if k in d.fields { PartField(d, t, k); }
    match s.index
    case None =>
      if |path| == 1 {
        assert path[1..] == [];
        AddsField(rows, d, t, k, v);
      } else {
        var next := if k in d.fields && d.fields[k] != Null then d.fields[k] else Object(map[]);
        assert NoIndex(path) ==> NoIndex(path[1..]) by { assert forall x <- path[1..] :: x in path; }
        SetAdds(rows, next, path[1..], t.fields[k], v);
        var n := PathSet(next, path[1..], v);
        if n.Some? {
          if k !in d.fields { AddsFromNothing(rows, n.value, t.fields[k]); }
          AddsField(rows, d, t, k, n.value);
        }
      }
    case Some(i) =>
      assert s in path;
      if PathSet(d, path, v).Some? {
        AddsField(rows, d, t, k, PathSet(d, path, v).value.fields[k]);
      }
  }

  lemma SetAtAdds(rows: bool, d: Tree, tree: Tree, q: string)
    requires d.Object? && Part(d, tree) && MustGet(tree, q) != Null && MustGet(d, q) == Null
    requires rows || NoIndex(ParsePath(q).value)
    ensures var r := SetAt(d, q, MustGet(tree, q));
      (r.Some? ==> r.value.Object? && Adds(rows, d, r.value, tree) && Part(r.value, tree))
      && (NoIndex(ParsePath(q).value) ==> r.Some?)
  {
    PathPlain(q);
    SetAdds(rows, d, ParsePath(q).value, tree, MustGet(tree, q));
  }

  lemma {:induction false} RepinnedAdds(rows: bool, d: Tree, tree: Tree, ids: seq<string>, n: nat)
    requires n <= |ids| && d.Object? && Part(d, tree) && (rows || NoIndexes(ids))
    ensures var r := Repinned(d, tree, ids, n);
      (r.Some? ==> r.value.Object? && Adds(rows, d, r.value, tree) && Part(r.value, tree))
      && (NoIndexes(ids) ==> r.Some?)
  {
    if n > 0 {
      RepinnedAdds(rows, d, tree, ids, n - 1);
      var e, q := Repinned(d, tree, ids, n - 1), ids[n - 1];
      assert q in ids;
      if e.Some? && MustGet(tree, q) != Null && MustGet(e.value, q) == Null {
        SetAtAdds(rows, e.value, tree, q);
        var r := SetAt(e.value, q, MustGet(tree, q));
        assert Repinned(d, tree, ids, n) == r;
        if r.Some? { AddsThen(rows, d, e.value, r.value, tree); }
      }
    }
  }

  // ----------------------------------------------------------- what is restored

  /** The fixture has the lists of rows that the prototype has a template for, whole. */
  predicate RowsKept(tree: Tree, prototype: Tree, r: Tree)
    decreases tree
  {
    tree.Object? && prototype.Object? && r.Object? ==>
      forall k <- tree.fields :: k in prototype.fields ==> FieldKept(tree, prototype, r, k)
  }

  predicate FieldKept(tree: Tree, prototype: Tree, r: Tree, k: string)
    requires tree.Object? && prototype.Object? && r.Object? && k in tree.fields && k in prototype.fields
    decreases tree, 0
  {
    if tree.fields[k].List? && prototype.fields[k].Object? then k in r.fields && r.fields[k] == tree.fields[k]
    else k in r.fields ==> RowsKept(tree.fields[k], prototype.fields[k], r.fields[k])
  }

  /** Of what the prototype says all of, no list of rows is left. */
  lemma {:induction false} NothingLeftKept(tree: Tree, prototype: Tree, r: Tree)
    requires tree.Object? && prototype.Object? && Subtract(tree, prototype) == Object(map[])
    ensures RowsKept(tree, prototype, r)
    decreases tree
  {
    if r.Object? {
      forall k | k in tree.fields && k in prototype.fields
        ensures FieldKept(tree, prototype, r, k)
      {
        assert Left(tree, prototype, k) == None by { assert k !in Subtract(tree, prototype).fields; }
        if k in r.fields && tree.fields[k].Object? && prototype.fields[k].Object? {
          NothingLeftKept(tree.fields[k], prototype.fields[k], r.fields[k]);
        }
      }
    }
  }

  /** What a field of the fixture gives, merged. */
  predicate Given(tree: Tree, prototype: Tree, r: Tree, k: string)
    requires tree.Object? && prototype.Object? && r.Object? && k in tree.fields
  {
    k in Merge(prototype, r).fields && Merge(prototype, r).fields[k] == tree.fields[k]
  }

  lemma FieldAdds(rows: bool, d: Tree, r: Tree, t: Tree, k: string)
    requires d.Object? && r.Object? && t.Object? && k in t.fields && Adds(rows, d, r, t)
    ensures if k in d.fields then k in r.fields && Adds(rows, d.fields[k], r.fields[k], t.fields[k])
      else k in r.fields ==> Within(r.fields[k], t.fields[k])
  {
    if r != d && k in r.fields { assert AddsAt(rows, d, r, t, k); }
  }

  predicate FieldFits(tree: Tree, prototype: Tree, r: Tree, k: string)
    requires tree.Object? && prototype.Object? && r.Object? && k in tree.fields
  {
    k in prototype.fields ==>
      Fits(prototype.fields[k], tree.fields[k]) && FieldKept(tree, prototype, r, k)
  }

  lemma {:induction false} FieldGiven(tree: Tree, prototype: Tree, r: Tree, k: string)
    requires tree.Object? && prototype.Object? && r.Object? && k in tree.fields
    requires Adds(true, Subtract(tree, prototype), r, tree)
    ensures Given(tree, prototype, r, k) <==> FieldFits(tree, prototype, r, k)
    decreases tree, 0
  {
    var d := Subtract(tree, prototype);
    var left := Left(tree, prototype, k);
    assert left == if k in d.fields then Some(d.fields[k]) else None;
    FieldAdds(true, d, r, tree, k);
    var actual := tree.fields[k];
    if k !in prototype.fields {
      AddsNothing(true, r.fields[k], actual);
    } else if actual.Object? && prototype.fields[k].Object? {
      NestedGiven(actual, prototype.fields[k], if k in r.fields then r.fields[k] else Object(map[]), k in d.fields);
    } else if actual.List? && prototype.fields[k].Object? {
      assert r.fields[k].List?;
      assert Merge(prototype.fields[k], r.fields[k]) == r.fields[k];
    } else if left == None {
      FitsSelf(actual);
      assert actual == prototype.fields[k];
      if k in r.fields {
        WithinMerges(r.fields[k], actual);
        assert RowsKept(actual, actual, r.fields[k]);
      }
    } else {
      AddsNothing(true, r.fields[k], actual);
      assert Merge(prototype.fields[k], actual) == actual && Fits(prototype.fields[k], actual);
      assert RowsKept(actual, prototype.fields[k], actual);
    }
  }

  lemma {:induction false} NestedGiven(tree: Tree, prototype: Tree, r: Tree, there: bool)
    requires tree.Object? && prototype.Object?
    requires there <==> Subtract(tree, prototype) != Object(map[])
    requires if there then Adds(true, Subtract(tree, prototype), r, tree) else Within(r, tree) || r == Object(map[])
    ensures Merge(prototype, r) == tree <==> Fits(prototype, tree) && RowsKept(tree, prototype, r)
    ensures !there ==> RowsKept(tree, prototype, r)
    ensures r == Object(map[]) ==> Merge(prototype, r) == prototype
    decreases tree, 2
  {
    MergeNothing(prototype);
    if !there {
      AddsFromNothing(true, r, tree);
      NothingLeftKept(tree, prototype, r);
    }
    AddedMerges(tree, prototype, r);
  }

  /** What is restored of a delta that the tree's own values were added to. */
  lemma {:induction false} AddedMerges(tree: Tree, prototype: Tree, r: Tree)
    requires tree.Object? && prototype.Object? && Adds(true, Subtract(tree, prototype), r, tree)
    ensures Merge(prototype, r) == tree <==> Fits(prototype, tree) && RowsKept(tree, prototype, r)
    decreases tree, 1
  {
    var d, m := Subtract(tree, prototype), Merge(prototype, r);
    forall k | k in tree.fields
      ensures Given(tree, prototype, r, k) <==> FieldFits(tree, prototype, r, k)
    {
      FieldGiven(tree, prototype, r, k);
    }
    assert r.fields.Keys <= tree.fields.Keys;
    if Fits(prototype, tree) && RowsKept(tree, prototype, r) {
      assert forall k <- tree.fields :: Given(tree, prototype, r, k);
      assert m.fields == tree.fields;
    }
    if m == tree {
      assert forall k <- prototype.fields :: k in m.fields;
      assert forall k <- tree.fields :: Given(tree, prototype, r, k);
    }
  }

  /** Where no list changes, neither does what is kept of them. */
  lemma {:induction false} SameRows(tree: Tree, prototype: Tree, r: Tree)
    requires tree.Object? && prototype.Object? && Adds(false, Subtract(tree, prototype), r, tree)
    ensures RowsKept(tree, prototype, r) <==> RowsKept(tree, prototype, Subtract(tree, prototype))
    decreases tree
  {
    var d := Subtract(tree, prototype);
    forall k | k in tree.fields && k in prototype.fields
      ensures FieldKept(tree, prototype, r, k) <==> FieldKept(tree, prototype, d, k)
    {
      var left := Left(tree, prototype, k);
      assert left == if k in d.fields then Some(d.fields[k]) else None;
      FieldAdds(false, d, r, tree, k);
      if tree.fields[k].Object? && prototype.fields[k].Object? {
        if k in d.fields {
          assert d.fields[k] == Subtract(tree.fields[k], prototype.fields[k]);
          SameRows(tree.fields[k], prototype.fields[k], r.fields[k]);
        } else if k in r.fields {
          NothingLeftKept(tree.fields[k], prototype.fields[k], r.fields[k]);
        }
      }
    }
  }

  /**
   A tree is restored, by the merge that replaces lists, exactly when it has every field its prototype has, and
   its fixture every list of rows whole: as it has, when no identity's path goes into a list, exactly where no row
   repeats its template. Then no identity fails to be put back.
   */
  lemma ExtractedRestores(tree: Tree, prototype: Tree, ids: seq<string>)
    requires tree.Object? && prototype.Object?
    ensures var r := Extracted(tree, prototype, ids);
      r.Some? ==>
        (Merge(prototype, r.value) == tree <==> Fits(prototype, tree) && RowsKept(tree, prototype, r.value))
    ensures var r := Extracted(tree, prototype, ids);
      NoIndexes(ids) ==>
        r.Some? && (Merge(prototype, r.value) == tree <==> Fits(prototype, tree) && RowsDiffer(tree, prototype))
  {
    var d, r := Subtract(tree, prototype), Extracted(tree, prototype, ids);
    SubtractPart(tree, prototype);
    RepinnedAdds(true, d, tree, ids, |ids|);
    if r.Some? { AddedMerges(tree, prototype, r.value); }
    if NoIndexes(ids) {
      RepinnedAdds(false, d, tree, ids, |ids|);
      SameRows(tree, prototype, r.value);
      AddedMerges(tree, prototype, d);
      SubtractRestoresReplacing(tree, prototype);
    }
  }

  // ----------------------------------------------------------------- method

  lemma {:induction false} FailureStays(d: Tree, tree: Tree, ids: seq<string>, i: nat, n: nat)
    requires i <= n <= |ids| && Repinned(d, tree, ids, i) == None
    ensures Repinned(d, tree, ids, n) == None
  {
    if i < n { FailureStays(d, tree, ids, i, n - 1); }
  }

  method Extract(tree: Tree, prototype: Tree, ids: seq<string>) returns (r: Option<Tree>)
    requires tree.Object? && prototype.Object?
    ensures r == Extracted(tree, prototype, ids)
  {
    var delta := SubtractTree(tree, prototype);
    r := Some(delta);
    for i := 0 to |ids|
      invariant r.Some? && r == Repinned(Subtract(tree, prototype), tree, ids, i)
    {
      var v := MustGet(tree, ids[i]);
      if v != Null && MustGet(r.value, ids[i]) == Null {
        r := SetAt(r.value, ids[i], v);
        if r == None {
          FailureStays(delta, tree, ids, i + 1, |ids|);
          return;
        }
      }
    }
  }
}
