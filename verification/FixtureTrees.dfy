/**
 Fixture trees (internal/fixtures): the deep merge a prototype is applied by, and the subtraction that
 leaves of a tree what its prototype does not say. An object is a map: trees are compared whatever the
 order of their members.
 */
module FixtureTrees {
  import opened Wrappers

  datatype Tree = Null | Scalar(text: string) | List(items: seq<Tree>) | Object(fields: map<string, Tree>)

  // ---------------------------------------------------------------- merging

  /** deepMerge: maps merge, anything else is replaced. */
  function Merge(base: Tree, overlay: Tree): Tree
    decreases overlay
  {
    if base.Object? && overlay.Object? then
      Object(map k | k in base.fields.Keys + overlay.fields.Keys ::
        if k !in overlay.fields then base.fields[k]
        else if k !in base.fields then overlay.fields[k]
        else Merge(base.fields[k], overlay.fields[k]))
    else overlay
  }

  /** The merge of a prototype: maps merge, a map applies to each row of a list, anything else is replaced. */
  function MergeRows(base: Tree, overlay: Tree): Tree
    decreases overlay
  {
    if base.Object? && overlay.Object? then
      Object(map k | k in base.fields.Keys + overlay.fields.Keys ::
        if k !in overlay.fields then base.fields[k]
        else if k !in base.fields then overlay.fields[k]
        else MergeRows(base.fields[k], overlay.fields[k]))
    else if base.Object? && overlay.List? then
      List(seq(|overlay.items|, i requires 0 <= i < |overlay.items| =>
        if overlay.items[i].Object? then MergeRows(base, overlay.items[i]) else overlay.items[i]))
    else overlay
  }

  // ------------------------------------------------------------ subtraction

  /** What a tree says that the prototype does not. */
  function Subtract(tree: Tree, prototype: Tree): (r: Tree)
    ensures tree.Object? && prototype.Object? ==> r.Object?
    decreases tree, 0
  {
    if tree.Object? && prototype.Object? then
      Object(map k | k in tree.fields && Left(tree, prototype, k).Some? :: Left(tree, prototype, k).value)
    else tree
  }

  /** What is left of a field of the tree, if anything. */
  function Left(tree: Tree, prototype: Tree, k: string): Option<Tree>
    requires tree.Object? && prototype.Object? && k in tree.fields
    decreases tree, 0, 0
  {
    var actual := tree.fields[k];
    if k !in prototype.fields then Some(actual)
    else if actual.Object? && prototype.fields[k].Object? then
      var nested := Subtract(actual, prototype.fields[k]);
      if nested.fields == map[] then None else Some(nested)
    else if actual.List? && prototype.fields[k].Object? then
      Some(List(SubtractRows(actual, prototype.fields[k])))
    else if actual == prototype.fields[k] then None
    else Some(actual)
  }

  function SubtractRows(list: Tree, prototype: Tree): (r: seq<Tree>)
    requires list.List? && prototype.Object?
    ensures |r| == |list.items|
    decreases list, 1
  {
    seq(|list.items|, i requires 0 <= i < |list.items| => Subtract(list.items[i], prototype))
  }

  // ----------------------------------------- nothing is lost, rows included

  lemma {:induction false} MergeNothing(base: Tree)
    requires base.Object?
    ensures MergeRows(base, Object(map[])) == base && Merge(base, Object(map[])) == base
  {
  }

  /** What is left of a field merges as the field does. */
  lemma {:induction false} LeftMerges(tree: Tree, prototype: Tree, k: string)
    requires tree.Object? && prototype.Object? && k in tree.fields && k in prototype.fields
    ensures var e, want := prototype.fields[k], MergeRows(prototype.fields[k], tree.fields[k]);
      match Left(tree, prototype, k)
      case None => e == want
      case Some(v) => MergeRows(e, v) == want
    decreases tree, 0
  {
    var a, e := tree.fields[k], prototype.fields[k];
    if a.Object? && e.Object? {
      SubtractLosesNothing(a, e);
      MergeNothing(e);
    } else if a.List? && e.Object? {
      RowsMerge(a, e);
    }
  }

  lemma {:induction false} RowsMerge(list: Tree, prototype: Tree)
    requires list.List? && prototype.Object?
    ensures MergeRows(prototype, List(SubtractRows(list, prototype))) == MergeRows(prototype, list)
    decreases list, 2
  {
    var d := SubtractRows(list, prototype);
    forall i | 0 <= i < |d|
      ensures d[i].Object? == list.items[i].Object? && (!list.items[i].Object? ==> d[i] == list.items[i])
      ensures MergeRows(prototype, d[i]) == MergeRows(prototype, list.items[i])
    {
      SubtractLosesNothing(list.items[i], prototype);
    }
    MergeRowsAlike(prototype, d, list.items);
  }

  lemma MergeRowsAlike(base: Tree, a: seq<Tree>, b: seq<Tree>)
    requires base.Object? && |a| == |b|
    requires forall i | 0 <= i < |a| :: a[i].Object? == b[i].Object?
    requires forall i | 0 <= i < |a| :: !b[i].Object? ==> a[i] == b[i]
    requires forall i | 0 <= i < |a| :: MergeRows(base, a[i]) == MergeRows(base, b[i])
    ensures MergeRows(base, List(a)) == MergeRows(base, List(b))
  {
    assert MergeRows(base, List(a)).items == MergeRows(base, List(b)).items;
  }

  /** The subtracted tree merges to what the tree itself does. */
  lemma {:induction false} SubtractLosesNothing(tree: Tree, prototype: Tree)
    ensures MergeRows(prototype, Subtract(tree, prototype)) == MergeRows(prototype, tree)
    decreases tree, 1
  {
    if tree.Object? && prototype.Object? {
      var d := Subtract(tree, prototype);
      var m, n := MergeRows(prototype, d), MergeRows(prototype, tree);
      forall k: string
        ensures (k in m.fields <==> k in n.fields) && (k in m.fields ==> m.fields[k] == n.fields[k])
      {
        if k in tree.fields {
          assert k in d.fields <==> Left(tree, prototype, k).Some?;
          if k in prototype.fields { LeftMerges(tree, prototype, k); }
        }
      }
      assert m.fields == n.fields;
    }
  }

  /** The tree has every field the prototype has, as has each of its rows. */
  predicate FitsRows(prototype: Tree, tree: Tree)
    decreases tree
  {
    if prototype.Object? && tree.Object? then
      forall k <- prototype.fields :: k in tree.fields && FitsRows(prototype.fields[k], tree.fields[k])
    else if prototype.Object? && tree.List? then
      forall i | 0 <= i < |tree.items| :: tree.items[i].Object? ==> FitsRows(prototype, tree.items[i])
    else true
  }

  lemma {:induction false} MergeRowsKeeps(prototype: Tree, tree: Tree)
    ensures MergeRows(prototype, tree) == tree <==> FitsRows(prototype, tree)
    decreases tree
  {
    var m := MergeRows(prototype, tree);
    if prototype.Object? && tree.Object? {
      forall k | k in prototype.fields && k in tree.fields
        ensures m.fields[k] == tree.fields[k] <==> FitsRows(prototype.fields[k], tree.fields[k])
      {
        MergeRowsKeeps(prototype.fields[k], tree.fields[k]);
      }
      if FitsRows(prototype, tree) {
        assert m.fields == tree.fields;
      } else {
        var k :| k in prototype.fields && !(k in tree.fields && FitsRows(prototype.fields[k], tree.fields[k]));
        assert k in m.fields;
      }
    } else if prototype.Object? && tree.List? {
      forall i | 0 <= i < |tree.items|
        ensures m.items[i] == tree.items[i] <==> (tree.items[i].Object? ==> FitsRows(prototype, tree.items[i]))
      {
        MergeRowsKeeps(prototype, tree.items[i]);
      }
      if FitsRows(prototype, tree) {
        assert m.items == tree.items;
      }
    }
  }

  /** A tree is restored from what is left of it exactly when it has every field its prototype has. */
  lemma SubtractRestores(tree: Tree, prototype: Tree)
    ensures MergeRows(prototype, Subtract(tree, prototype)) == tree <==> FitsRows(prototype, tree)
  {
    SubtractLosesNothing(tree, prototype);
    MergeRowsKeeps(prototype, tree);
  }

  // ------------------------------------------- where lists are only replaced

  /** The tree has every field the prototype has, but inside lists. */
  predicate Fits(prototype: Tree, tree: Tree)
    decreases tree
  {
    prototype.Object? && tree.Object? ==>
      forall k <- prototype.fields :: k in tree.fields && Fits(prototype.fields[k], tree.fields[k])
  }

  lemma {:induction false} MergeKeeps(prototype: Tree, tree: Tree)
    ensures Merge(prototype, tree) == tree <==> Fits(prototype, tree)
    decreases tree
  {
    var m := Merge(prototype, tree);
    if prototype.Object? && tree.Object? {
      forall k | k in prototype.fields && k in tree.fields
        ensures m.fields[k] == tree.fields[k] <==> Fits(prototype.fields[k], tree.fields[k])
      {
        MergeKeeps(prototype.fields[k], tree.fields[k]);
      }
      if Fits(prototype, tree) {
        assert m.fields == tree.fields;
      } else {
        var k :| k in prototype.fields && !(k in tree.fields && Fits(prototype.fields[k], tree.fields[k]));
        assert k in m.fields;
      }
    }
  }

  /** Whatever is merged into it, a prototype's fields stay. */
  lemma {:induction false} MergedFits(prototype: Tree, overlay: Tree)
    ensures Fits(prototype, Merge(prototype, overlay))
    decreases overlay
  {
    if prototype.Object? && overlay.Object? {
      forall k | k in prototype.fields
        ensures Fits(prototype.fields[k], Merge(prototype, overlay).fields[k])
      {
        if k in overlay.fields { MergedFits(prototype.fields[k], overlay.fields[k]); }
        else { FitsSelf(prototype.fields[k]); }
      }
    }
  }

  lemma {:induction false} FitsSelf(t: Tree)
    ensures Fits(t, t)
  {
    if t.Object? {
      forall k | k in t.fields
        ensures Fits(t.fields[k], t.fields[k])
      {
        FitsSelf(t.fields[k]);
      }
    }
  }

  /** The tree repeats nothing its prototype says: an entry as it is there, an empty map, such a row. */
  predicate Repeats(tree: Tree, prototype: Tree)
    decreases tree
  {
    tree.Object? && prototype.Object? &&
    exists k <- tree.fields :: k in prototype.fields &&
      var a, e := tree.fields[k], prototype.fields[k];
      if a.Object? && e.Object? then a.fields == map[] || Repeats(a, e)
      else if a.List? && e.Object? then exists i | 0 <= i < |a.items| :: Repeats(a.items[i], e)
      else a == e
  }

  /** No row of a list that the prototype has a template for repeats anything of the template. */
  predicate RowsDiffer(tree: Tree, prototype: Tree)
    decreases tree
  {
    tree.Object? && prototype.Object? ==>
      forall k <- tree.fields :: k in prototype.fields ==>
        var a, e := tree.fields[k], prototype.fields[k];
        if a.List? && e.Object? then forall i | 0 <= i < |a.items| :: !Repeats(a.items[i], e)
        else RowsDiffer(a, e)
  }

  lemma {:induction false} LeftWhole(tree: Tree, prototype: Tree, k: string)
    requires tree.Object? && prototype.Object? && k in tree.fields && k in prototype.fields
    ensures var a, e := tree.fields[k], prototype.fields[k];
      Left(tree, prototype, k) == Some(a) <==>
        if a.Object? && e.Object? then a.fields != map[] && !Repeats(a, e)
        else if a.List? && e.Object? then forall i | 0 <= i < |a.items| :: !Repeats(a.items[i], e)
        else a != e
    decreases tree, 0
  {
    var a, e := tree.fields[k], prototype.fields[k];
    if a.Object? && e.Object? {
      SubtractWhole(a, e);
    } else if a.List? && e.Object? {
      forall i | 0 <= i < |a.items|
        ensures SubtractRows(a, e)[i] == a.items[i] <==> !Repeats(a.items[i], e)
      {
        SubtractWhole(a.items[i], e);
      }
      assert SubtractRows(a, e) == a.items <==> forall i | 0 <= i < |a.items| :: SubtractRows(a, e)[i] == a.items[i];
    }
  }

  /** Subtracting takes nothing away exactly when the tree repeats nothing. */
  lemma {:induction false} SubtractWhole(tree: Tree, prototype: Tree)
    ensures Subtract(tree, prototype) == tree <==> !Repeats(tree, prototype)
    decreases tree, 1
  {
    if tree.Object? && prototype.Object? {
      var d := Subtract(tree, prototype);
      forall k | k in tree.fields
        ensures (k in d.fields && d.fields[k] == tree.fields[k]) <==> Left(tree, prototype, k) == Some(tree.fields[k])
      {
      }
      forall k | k in tree.fields && k in prototype.fields
        ensures var a, e := tree.fields[k], prototype.fields[k];
          Left(tree, prototype, k) == Some(a) <==>
            if a.Object? && e.Object? then a.fields != map[] && !Repeats(a, e)
            else if a.List? && e.Object? then forall i | 0 <= i < |a.items| :: !Repeats(a.items[i], e)
            else a != e
      {
        LeftWhole(tree, prototype, k);
      }
      if !Repeats(tree, prototype) {
        assert d.fields == tree.fields;
      }
    }
  }

  /** The merge that replaces lists restores what the prototype's rows left only where no row repeats them. */
  lemma {:induction false} SubtractReplaces(tree: Tree, prototype: Tree)
    ensures Merge(prototype, Subtract(tree, prototype)) == Merge(prototype, tree) <==> RowsDiffer(tree, prototype)
    decreases tree, 1
  {
    if tree.Object? && prototype.Object? {
      var d := Subtract(tree, prototype);
      var m, n := Merge(prototype, d), Merge(prototype, tree);
      forall k: string
        ensures (k in m.fields <==> k in n.fields)
        ensures k in m.fields ==> (m.fields[k] == n.fields[k] <==> FieldDiffers(tree, prototype, k))
      {
        if k in tree.fields {
          assert k in d.fields <==> Left(tree, prototype, k).Some?;
          if k in prototype.fields { FieldReplaces(tree, prototype, k); }
        }
      }
      assert RowsDiffer(tree, prototype) <==> forall k <- tree.fields :: FieldDiffers(tree, prototype, k);
      if RowsDiffer(tree, prototype) {
        assert m.fields == n.fields;
      } else {
        var k :| k in tree.fields && !FieldDiffers(tree, prototype, k);
        assert k in m.fields && m.fields[k] != n.fields[k];
      }
    }
  }

  predicate FieldDiffers(tree: Tree, prototype: Tree, k: string)
    requires tree.Object? && prototype.Object?
  {
    k in tree.fields && k in prototype.fields ==>
      var a, e := tree.fields[k], prototype.fields[k];
      if a.List? && e.Object? then forall i | 0 <= i < |a.items| :: !Repeats(a.items[i], e)
      else RowsDiffer(a, e)
  }

  lemma {:induction false} FieldReplaces(tree: Tree, prototype: Tree, k: string)
    requires tree.Object? && prototype.Object? && k in tree.fields && k in prototype.fields
    ensures var a, e := tree.fields[k], prototype.fields[k];
      (match Left(tree, prototype, k)
       case None => e == Merge(e, a)
       case Some(v) => Merge(e, v) == Merge(e, a)) <==> FieldDiffers(tree, prototype, k)
    decreases tree, 0
  {
    var a, e := tree.fields[k], prototype.fields[k];
    if a.Object? && e.Object? {
      SubtractReplaces(a, e);
      MergeNothing(e);
    } else {
      LeftWhole(tree, prototype, k);
    }
  }

  /** So under that merge a tree is restored exactly when, besides, no row repeats its template. */
  lemma SubtractRestoresReplacing(tree: Tree, prototype: Tree)
    ensures Merge(prototype, Subtract(tree, prototype)) == tree
       <==> Fits(prototype, tree) && RowsDiffer(tree, prototype)
  {
    SubtractReplaces(tree, prototype);
    MergeKeeps(prototype, tree);
    MergedFits(prototype, Subtract(tree, prototype));
  }

  /** A row that repeats its template loses what it repeats, under that merge. */
  lemma RowLost()
    ensures var row := Object(map["a" := Null]);
      var tree, prototype := Object(map["rows" := List([row])]), Object(map["rows" := row]);
      Merge(prototype, Subtract(tree, prototype)) == Object(map["rows" := List([Object(map[])])]) != tree
  {
    var row := Object(map["a" := Null]);
    var tree, prototype := Object(map["rows" := List([row])]), Object(map["rows" := row]);
    assert Left(row, row, "a") == None;
    assert Subtract(row, row).fields == map[];
    assert SubtractRows(List([row]), row) == [Object(map[])];
    assert Left(tree, prototype, "rows") == Some(List([Object(map[])]));
    assert Subtract(tree, prototype).fields == map["rows" := List([Object(map[])])];
    assert Merge(prototype, Subtract(tree, prototype)).fields == map["rows" := List([Object(map[])])];
  }

  // ---------------------------------------------------------------- methods

  /** subtract: a loop over the tree's members, and over the rows of a list. */
  method SubtractTree(tree: Tree, prototype: Tree) returns (out: Tree)
    requires tree.Object? && prototype.Object?
    ensures out == Subtract(tree, prototype)
    decreases tree, 0
  {
    var fields: map<string, Tree> := map[];
    var keys := tree.fields.Keys;
    while keys != {}
      invariant keys <= tree.fields.Keys
      invariant forall k <- fields :: k in tree.fields && k !in keys
      invariant forall k | k in tree.fields && k !in keys ::
        Left(tree, prototype, k) == if k in fields then Some(fields[k]) else None
      decreases |keys|
    {
      var k :| k in keys;
      keys := keys - {k};
      var actual := tree.fields[k];
      if k !in prototype.fields {
        fields := fields[k := actual];
        continue;
      }
      var expected := prototype.fields[k];
      if actual.Object? && expected.Object? {
        var nested := SubtractTree(actual, expected);
        if nested.fields != map[] { fields := fields[k := nested]; }
      } else if actual.List? && expected.Object? {
        var deltas := SubtractEach(actual, expected);
        fields := fields[k := List(deltas)];
      } else if actual != expected {
        fields := fields[k := actual];
      }
    }
    out := Object(fields);
    assert fields == Subtract(tree, prototype).fields;
  }

  method SubtractEach(list: Tree, prototype: Tree) returns (deltas: seq<Tree>)
    requires list.List? && prototype.Object?
    ensures deltas == SubtractRows(list, prototype)
    decreases list, 1
  {
    deltas := [];
    for i := 0 to |list.items|
      invariant deltas == SubtractRows(list, prototype)[..i]
    {
      var row := list.items[i];
      if row.Object? { row := SubtractTree(row, prototype); }
      deltas := deltas + [row];
    }
  }
}
