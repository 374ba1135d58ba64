/**
 Adoption (internal/fixtures/adopter.go): many trees of one shape become a prototype, the fields whose
 value every tree shares or the one most common, and each tree what it says besides, with its identities
 put back at their paths. A field's path is its names joined by dots.
 */
module SharedTree {
  import opened Wrappers
  import opened FixtureTrees
  import opened Modal
  import opened Paths

  /** A field of the schema: what adoption descends into has children. */
  datatype Shape = Shape(name: string, nested: bool, children: seq<Shape>)

  /** Where a field is: the names it is found by, from the root. */
  type Place = seq<string>

  /** joinPath */
  function JoinPath(path: string, name: string): string {
    if path == "" then name else path + ['.'] + name
  }

  /** The path of a place. */
  function Joined(at: Place): string {
    if at == [] then "" else JoinPath(Joined(at[..|at| - 1]), at[|at| - 1])
  }

  lemma JoinedMore(at: Place, k: string)
    ensures Joined(at + [k]) == JoinPath(Joined(at), k)
  {
    assert (at + [k])[..|at|] == at;
  }

  // ------------------------------------------------------------ prototypes

  function Values(trees: seq<Tree>, name: string): (r: seq<Tree>)
    requires forall t <- trees :: t.Object? && name in t.fields
    ensures |r| == |trees|
  {
    seq(|trees|, i requires 0 <= i < |trees| => trees[i].fields[name])
  }

  /** The value the prototype has for a field: the shared one, or the common one. */
  function PrototypeField(common: bool, f: Shape, path: string, trees: seq<Tree>, ids: seq<string>): Option<Tree>
    requires forall t <- trees :: t.Object?
    decreases f, 1, 0
  {
    if JoinPath(path, f.name) in ids || exists t <- trees :: f.name !in t.fields then None
    else
      var values := Values(trees, f.name);
      if f.nested && forall v <- values :: v.Object? then
        var nested := PrototypeFields(common, f, |f.children|, JoinPath(path, f.name), values, ids);
        if common || nested != map[] then Some(Object(nested)) else None
      else
        var usual := Usual(values);
        if usual.Some? && (common || Count(values, usual.value) == |values|) then usual else None
  }

  /** The prototype of the first n fields of a shape. */
  function PrototypeFields(common: bool, shape: Shape, n: nat, path: string, trees: seq<Tree>,
                           ids: seq<string>): map<string, Tree>
    requires n <= |shape.children|
    requires forall t <- trees :: t.Object?
    decreases shape, 0, n
  {
    if n == 0 then map[]
    else
      var f := shape.children[n - 1];
      var rest := PrototypeFields(common, shape, n - 1, path, trees, ids);
      match PrototypeField(common, f, path, trees, ids)
      case None => rest
      case Some(v) => rest[f.name := v]
  }

  /** sharedTree, or modalTree when the common values are taken. */
  function Prototype(common: bool, shape: Shape, trees: seq<Tree>, ids: seq<string>): Tree
    requires forall t <- trees :: t.Object?
  {
    Object(PrototypeFields(common, shape, |shape.children|, "", trees, ids))
  }

  // ---------------------------------------------------------------- deltas

  function DeltaField(f: Shape, path: string, prototype: Tree, tree: Tree, ids: seq<string>): Option<Tree>
    requires prototype.Object? && tree.Object?
    decreases f, 1, 0
  {
    if JoinPath(path, f.name) in ids || f.name !in tree.fields then None
    else
      var actual := tree.fields[f.name];
      if f.name !in prototype.fields then Some(actual)
      else
        var expected := prototype.fields[f.name];
        if f.nested && expected.Object? && actual.Object? then
          var nested := DeltaFields(f, |f.children|, JoinPath(path, f.name), expected, actual, ids);
          if nested == map[] then None else Some(Object(nested))
        else if expected == actual then None
        else Some(actual)
  }

  function DeltaFields(shape: Shape, n: nat, path: string, prototype: Tree, tree: Tree,
                       ids: seq<string>): map<string, Tree>
    requires n <= |shape.children| && prototype.Object? && tree.Object?
    decreases shape, 0, n
  {
    if n == 0 then map[]
    else
      var f := shape.children[n - 1];
      var rest := DeltaFields(shape, n - 1, path, prototype, tree, ids);
      match DeltaField(f, path, prototype, tree, ids)
      case None => rest
      case Some(v) => rest[f.name := v]
  }

  /** deltaTree: what a tree says that the prototype does not, but for identities. */
  function Delta(shape: Shape, path: string, prototype: Tree, tree: Tree, ids: seq<string>): Tree
    requires prototype.Object? && tree.Object?
  {
    Object(DeltaFields(shape, |shape.children|, path, prototype, tree, ids))
  }

  /** The delta with the tree's values at the first n identities put back: none where one cannot be. */
  function Pinned(delta: Tree, tree: Tree, ids: seq<string>, n: nat): Option<Tree>
    requires n <= |ids|
  {
    if n == 0 then Some(delta)
    else
      match Pinned(delta, tree, ids, n - 1)
      case None => None
      case Some(d) => SetAt(d, ids[n - 1], MustGet(tree, ids[n - 1]))
  }

  /** A tree's fixture, over a prototype. */
  function Adopted(shape: Shape, prototype: Tree, tree: Tree, ids: seq<string>): Option<Tree>
    requires prototype.Object? && tree.Object?
  {
    Pinned(Delta(shape, "", prototype, tree, ids), tree, ids, |ids|)
  }

  // ---------------------------------------------------- part of another tree

  /** Everything the one tree says, the other does too. */
  predicate Within(a: Tree, b: Tree)
    decreases a
  {
    a == b || (a.Object? && b.Object? && forall k <- a.fields :: k in b.fields && Within(a.fields[k], b.fields[k]))
  }

  lemma WithinField(a: Tree, b: Tree, k: string)
    requires Within(a, b) && a.Object? && k in a.fields
    ensures b.Object? && k in b.fields && Within(a.fields[k], b.fields[k])
  {
  }

  lemma {:induction false} WithinBoth(a: Tree, b: Tree)
    requires Within(a, b) && Within(b, a)
    ensures a == b
    decreases a
  {
    if a.Object? && b.Object? {
      forall k | k in a.fields
        ensures k in b.fields && a.fields[k] == b.fields[k]
      {
        WithinField(a, b, k);
        WithinField(b, a, k);
        WithinBoth(a.fields[k], b.fields[k]);
      }
      assert a.fields == b.fields;
    }
  }

  lemma {:induction false} WithinThen(a: Tree, b: Tree, c: Tree)
    requires Within(a, b) && Within(b, c)
    ensures Within(a, c)
    decreases a
  {
    if a.Object? {
      forall k | k in a.fields
        ensures c.Object? && k in c.fields && Within(a.fields[k], c.fields[k])
      {
        WithinField(a, b, k);
        WithinField(b, c, k);
        WithinThen(a.fields[k], b.fields[k], c.fields[k]);
      }
      assert b.Object? && c.Object?;
    }
  }

  lemma {:induction false} GetWithin(a: Tree, b: Tree, path: Path)
    requires Within(a, b) && PathGet(a, path).Some?
    ensures PathGet(b, path).Some? && Within(PathGet(a, path).value, PathGet(b, path).value)
  {
    if path != [] {
      var s := path[0];
      WithinField(a, b, s.name);
      match s.index
      case None => GetWithin(a.fields[s.name], b.fields[s.name], path[1..]);
      case Some(i) => GetWithin(a.fields[s.name].items[i], b.fields[s.name].items[i], path[1..]);
    }
  }

  predicate NoIndex(path: Path) {
    forall s <- path :: s.index == None
  }

  /** What putting back a tree's own value must leave: part of the tree, as much as there was, and the value. */
  predicate Puts(d: Tree, r: Tree, path: Path, tree: Tree) {
    r.Object? && Within(d, r) && Within(r, tree) && PathGet(r, path) == PathGet(tree, path)
  }

  lemma {:induction false} PathSetWithin(d: Tree, path: Path, tree: Tree)
    requires path != [] && d.Object? && Within(d, tree) && PathGet(tree, path).Some?
    ensures var r := PathSet(d, path, PathGet(tree, path).value);
      (r.Some? ==> Puts(d, r.value, path, tree)) && (NoIndex(path) ==> r.Some?)
    decreases |path|, 1
  {
    var s := path[0];
    match s.index
    case None => PlainStepWithin(d, path, tree);
    case Some(i) =>
      assert s in path;
      if s.name in d.fields && Item(d.fields[s.name], i).Some? { ItemStepWithin(d, path, tree, i); }
  }

  lemma {:induction false} PlainStepWithin(d: Tree, path: Path, tree: Tree)
    requires path != [] && path[0].index == None && d.Object? && Within(d, tree) && PathGet(tree, path).Some?
    ensures var r := PathSet(d, path, PathGet(tree, path).value);
      (r.Some? ==> Puts(d, r.value, path, tree)) && (NoIndex(path) ==> r.Some?)
    decreases |path|, 0
  {
    var k, v := path[0].name, PathGet(tree, path).value;
    assert forall j | j in d.fields :: j in tree.fields && Within(d.fields[j], tree.fields[j]);
    if |path| > 1 {
      var next := if k in d.fields && d.fields[k] != Null then d.fields[k] else Object(map[]);
      assert PathGet(tree.fields[k], path[1..]) == Some(v);
      assert tree.fields[k].Object?;
      assert NoIndex(path) ==> NoIndex(path[1..]) by { assert forall s <- path[1..] :: s in path; }
      PathSetWithin(next, path[1..], tree.fields[k]);
    } else {
      assert path[1..] == [];
    }
  }

  /** A list is the tree's own, so its item's value is there already. */
  lemma {:induction false} ItemStepWithin(d: Tree, path: Path, tree: Tree, i: nat)
    requires path != [] && path[0].index == Some(i) && d.Object? && Within(d, tree) && PathGet(tree, path).Some?
    requires path[0].name in d.fields && Item(d.fields[path[0].name], i).Some?
    ensures var r := PathSet(d, path, PathGet(tree, path).value); r.Some? ==> Puts(d, r.value, path, tree)
    decreases |path|, 0
  {
    var k, v := path[0].name, PathGet(tree, path).value;
    WithinField(d, tree, k);
    var item := d.fields[k].items[i];
    assert tree.fields[k] == d.fields[k] && PathGet(item, path[1..]) == Some(v);
    var r := PathSet(d, path, v);
    if r.Some? {
      SameItem(item, path[1..], v);
      assert d.fields[k].items[i := item] == d.fields[k].items;
      assert r.value.fields == d.fields;
    }
  }

  lemma {:induction false} SameItem(item: Tree, path: Path, v: Tree)
    requires PathGet(item, path) == Some(v) && PathSet(item, path, v).Some?
    ensures PathSet(item, path, v) == Some(item)
    decreases |path|, 2
  {
    if path != [] {
      PathSetWithin(item, path, item);
      WithinBoth(item, PathSet(item, path, v).value);
    }
  }

  predicate Present(tree: Tree, q: string) {
    ParsePath(q).Some? && PathGet(tree, ParsePath(q).value).Some?
  }

  /** No identity's path goes into a list. */
  predicate NoIndexes(ids: seq<string>) {
    forall q <- ids :: ParsePath(q).Some? && NoIndex(ParsePath(q).value)
  }

  predicate PinnedTo(delta: Tree, r: Tree, tree: Tree, ids: seq<string>, n: nat)
    requires n <= |ids|
  {
    r.Object? && Within(delta, r) && Within(r, tree)
    && (forall i | 0 <= i < n :: Present(tree, ids[i]) && Present(r, ids[i]))
    && forall i | 0 <= i < n :: PathGet(r, ParsePath(ids[i]).value) == PathGet(tree, ParsePath(ids[i]).value)
  }

  lemma SetAtWithin(d: Tree, tree: Tree, q: string)
    requires d.Object? && Within(d, tree) && Present(tree, q)
    ensures var r := SetAt(d, q, MustGet(tree, q));
      (r.Some? ==> Puts(d, r.value, ParsePath(q).value, tree)) && (NoIndex(ParsePath(q).value) ==> r.Some?)
  {
    PathPlain(q);
    PathSetWithin(d, ParsePath(q).value, tree);
  }

  lemma {:induction false} PinnedWithin(delta: Tree, tree: Tree, ids: seq<string>, n: nat)
    requires n <= |ids| && delta.Object? && Within(delta, tree)
    requires forall q <- ids :: Present(tree, q)
    ensures var r := Pinned(delta, tree, ids, n);
      (r.Some? ==> PinnedTo(delta, r.value, tree, ids, n)) && (NoIndexes(ids) ==> r.Some?)
  {
    if n > 0 {
      PinnedWithin(delta, tree, ids, n - 1);
      var d, q := Pinned(delta, tree, ids, n - 1), ids[n - 1];
      assert q in ids;
      if d.Some? {
        SetAtWithin(d.value, tree, q);
        var r := SetAt(d.value, q, MustGet(tree, q));
        assert Pinned(delta, tree, ids, n) == r;
        if r.Some? { PinnedOne(delta, d.value, r.value, tree, ids, n); }
      }
    }
  }

  lemma PinnedOne(delta: Tree, d: Tree, r: Tree, tree: Tree, ids: seq<string>, n: nat)
    requires 0 < n <= |ids| && PinnedTo(delta, d, tree, ids, n - 1)
    requires Present(tree, ids[n - 1]) && Puts(d, r, ParsePath(ids[n - 1]).value, tree)
    ensures PinnedTo(delta, r, tree, ids, n)
  {
    WithinThen(delta, d, r);
    forall i | 0 <= i < n - 1
      ensures Present(r, ids[i]) && PathGet(r, ParsePath(ids[i]).value) == PathGet(tree, ParsePath(ids[i]).value)
    {
      var p := ParsePath(ids[i]).value;
      GetWithin(d, r, p);
      GetWithin(r, tree, p);
      WithinBoth(PathGet(r, p).value, PathGet(tree, p).value);
    }
  }

  lemma {:induction false} WithinMerges(a: Tree, b: Tree)
    requires Within(a, b)
    ensures Merge(a, b) == b && Merge(b, a) == b
    decreases a
  {
    if a == b { MergeSelf(a); }
    else {
      forall k | k in a.fields
        ensures Merge(a.fields[k], b.fields[k]) == b.fields[k] == Merge(b.fields[k], a.fields[k])
      {
        WithinMerges(a.fields[k], b.fields[k]);
      }
      assert Merge(a, b).fields == b.fields;
      assert Merge(b, a).fields == b.fields;
    }
  }

  lemma {:induction false} MergeSelf(a: Tree)
    ensures Merge(a, a) == a
  {
    FitsSelf(a);
    MergeKeeps(a, a);
  }

  // ------------------------------------------------------- trees over a shape

  predicate Distinct(shape: Shape)
    decreases shape
  {
    (forall i, j | 0 <= i < j < |shape.children| :: shape.children[i].name != shape.children[j].name)
    && forall i | 0 <= i < |shape.children| :: Distinct(shape.children[i])
  }

  predicate Names(shape: Shape, k: string) {
    exists i | 0 <= i < |shape.children| :: shape.children[i].name == k
  }

  /** The tree has no field the shape does not. */
  predicate Over(shape: Shape, tree: Tree)
    decreases shape, 0
  {
    tree.Object? && (forall k <- tree.fields :: Names(shape, k))
    && forall i | 0 <= i < |shape.children| :: OverField(shape.children[i], tree)
  }

  predicate OverField(f: Shape, tree: Tree)
    decreases f, 1
  {
    tree.Object? && f.name in tree.fields && f.nested && tree.fields[f.name].Object? ==> Over(f, tree.fields[f.name])
  }

  // ----------------------------------------------------- the delta restores

  lemma {:induction false} DeltaLookup(shape: Shape, n: nat, path: string,
                                       prototype: Tree, tree: Tree, ids: seq<string>, i: nat)
    requires i < n <= |shape.children| && prototype.Object? && tree.Object? && Distinct(shape)
    ensures var m, f := DeltaFields(shape, n, path, prototype, tree, ids), shape.children[i];
      DeltaField(f, path, prototype, tree, ids) == if f.name in m then Some(m[f.name]) else None
  {
    if i == n - 1 {
      DeltaNames(shape, n - 1, path, prototype, tree, ids);
    } else {
      DeltaLookup(shape, n - 1, path, prototype, tree, ids, i);
    }
  }

  lemma {:induction false} DeltaNames(shape: Shape, n: nat, path: string, prototype: Tree, tree: Tree, ids: seq<string>)
    requires n <= |shape.children| && prototype.Object? && tree.Object?
    ensures forall k <- DeltaFields(shape, n, path, prototype, tree, ids) ::
      exists i | 0 <= i < n :: shape.children[i].name == k
  {
    if n > 0 {
      DeltaNames(shape, n - 1, path, prototype, tree, ids);
      assert shape.children[n - 1].name == shape.children[n - 1].name;
    }
  }

  lemma {:induction false} DeltaFieldWithin(f: Shape, path: string, prototype: Tree, tree: Tree, ids: seq<string>)
    requires prototype.Object? && tree.Object?
    ensures DeltaField(f, path, prototype, tree, ids).Some? ==>
      f.name in tree.fields && Within(DeltaField(f, path, prototype, tree, ids).value, tree.fields[f.name])
    decreases f, 1, 0
  {
    if f.name in tree.fields && f.name in prototype.fields && f.nested
      && prototype.fields[f.name].Object? && tree.fields[f.name].Object? {
      DeltaWithin(f, |f.children|, JoinPath(path, f.name), prototype.fields[f.name], tree.fields[f.name], ids);
    }
  }

  /** The delta says nothing the tree does not. */
  lemma {:induction false} DeltaWithin(shape: Shape, n: nat, path: string,
                                       prototype: Tree, tree: Tree, ids: seq<string>)
    requires n <= |shape.children| && prototype.Object? && tree.Object?
    ensures Within(Object(DeltaFields(shape, n, path, prototype, tree, ids)), tree)
    decreases shape, 0, n
  {
    if n > 0 {
      DeltaWithin(shape, n - 1, path, prototype, tree, ids);
      DeltaFieldWithin(shape.children[n - 1], path, prototype, tree, ids);
      var rest := Object(DeltaFields(shape, n - 1, path, prototype, tree, ids));
      assert forall k | k in rest.fields :: k in tree.fields && Within(rest.fields[k], tree.fields[k]);
    }
  }

  /** A path is the way to just this place. */
  predicate LeadsTo(q: string, at: Place) {
    ParsePath(q) == Some(Plain(at))
  }

  /** Some identity's path leads to the place, or to what it is in. */
  predicate Settled(at: Place, ids: seq<string>) {
    exists j | 0 < j <= |at| :: exists q <- ids :: LeadsTo(q, at[..j])
  }

  predicate GoesThrough(q: string, at: Place) {
    ParsePath(q).Some? && |at| < |ParsePath(q).value| && ParsePath(q).value[..|at|] == Plain(at)
  }

  /** Some identity's path leads to something in the place. */
  predicate Reached(at: Place, ids: seq<string>) {
    exists q <- ids :: GoesThrough(q, at)
  }

  /** Identities' paths lead to a value, or to every field of it. */
  predicate Covered(v: Tree, at: Place, ids: seq<string>)
    decreases v
  {
    Settled(at, ids)
    || (v.Object? && Reached(at, ids) && forall k <- v.fields :: Covered(v.fields[k], at + [k], ids))
  }

  /** At each place an identity settles, the one tree has what the other does, and there is something on its way. */
  ghost predicate Pins(d: Tree, tree: Tree, at: Place, ids: seq<string>) {
    (forall m: Place | m != [] && Settled(at + m, ids) :: Lookup(d, m) == Lookup(tree, m))
    && forall m: Place | m != [] && Reached(at + m, ids) :: Lookup(d, m).Some?
  }

  /** To each field the delta leaves out as an identity, or to every field of it, an identity's path leads. */
  predicate Placed(shape: Shape, at: Place, prototype: Tree, tree: Tree, ids: seq<string>)
    requires prototype.Object? && tree.Object?
    decreases shape, 0
  {
    forall i | 0 <= i < |shape.children| :: FieldPlaced(shape.children[i], at, prototype, tree, ids)
  }

  predicate FieldPlaced(f: Shape, at: Place, prototype: Tree, tree: Tree, ids: seq<string>)
    requires prototype.Object? && tree.Object?
    decreases f, 1
  {
    f.name in tree.fields ==>
      if Joined(at + [f.name]) in ids then Covered(tree.fields[f.name], at + [f.name], ids)
      else
        f.nested && f.name in prototype.fields && prototype.fields[f.name].Object? && tree.fields[f.name].Object? ==>
          Placed(f, at + [f.name], prototype.fields[f.name], tree.fields[f.name], ids)
  }

  lemma PinsBelow(d: Tree, tree: Tree, at: Place, ids: seq<string>, k: string)
    requires d.Object? && tree.Object? && k in tree.fields && Pins(d, tree, at, ids)
    ensures Pins(if k in d.fields then d.fields[k] else Object(map[]), tree.fields[k], at + [k], ids)
  {
    var sub := if k in d.fields then d.fields[k] else Object(map[]);
    forall m: Place | m != [] && Settled(at + [k] + m, ids)
      ensures Lookup(sub, m) == Lookup(tree.fields[k], m)
    {
      assert at + ([k] + m) == at + [k] + m;
      assert ([k] + m)[1..] == m;
      assert Lookup(d, [k] + m) == Lookup(tree, [k] + m);
    }
    forall m: Place | m != [] && Reached(at + [k] + m, ids)
      ensures Lookup(sub, m).Some?
    {
      assert at + ([k] + m) == at + [k] + m;
      assert ([k] + m)[1..] == m;
      assert Lookup(d, [k] + m).Some?;
    }
  }

  lemma GetOne(tree: Tree, k: string)
    ensures Lookup(tree, [k]) == if tree.Object? && k in tree.fields then Some(tree.fields[k]) else None
  {
    assert [k][1..] == [];
  }

  lemma OneName(m: Place)
    requires m != []
    ensures |m| == 1 ==> m == [m[0]]
  {
  }

  lemma PinsAt(d: Tree, tree: Tree, at: Place, ids: seq<string>, k: string)
    requires d.Object? && tree.Object? && k in tree.fields && Pins(d, tree, at, ids) && Settled(at + [k], ids)
    ensures k in d.fields && d.fields[k] == tree.fields[k]
  {
    assert Lookup(d, [k]) == Lookup(tree, [k]);
    GetOne(d, k);
    GetOne(tree, k);
  }

  /** What identities cover is there whole. */
  lemma {:induction false} CoversAt(d: Tree, tree: Tree, at: Place, ids: seq<string>, k: string)
    requires d.Object? && tree.Object? && k in tree.fields && Pins(d, tree, at, ids) && Within(d, tree)
    requires Covered(tree.fields[k], at + [k], ids)
    ensures k in d.fields && d.fields[k] == tree.fields[k]
    decreases tree, 0
  {
    if Settled(at + [k], ids) {
      PinsAt(d, tree, at, ids, k);
    } else {
      assert Lookup(d, [k]).Some?;
      GetOne(d, k);
      WithinField(d, tree, k);
      if d.fields[k] != tree.fields[k] {
        PinsBelow(d, tree, at, ids, k);
        FieldsCovered(d.fields[k], tree.fields[k], at + [k], ids);
      }
    }
  }

  lemma {:induction false} FieldsCovered(d: Tree, v: Tree, at: Place, ids: seq<string>)
    requires d.Object? && v.Object? && Pins(d, v, at, ids) && Within(d, v)
    requires forall k <- v.fields :: Covered(v.fields[k], at + [k], ids)
    ensures d == v
    decreases v, 1
  {
    forall k | k in v.fields
      ensures k in d.fields && d.fields[k] == v.fields[k]
    {
      CoversAt(d, v, at, ids, k);
    }
    SameFields(d, v);
  }

  lemma SameFields(d: Tree, v: Tree)
    requires d.Object? && v.Object? && Within(d, v)
    requires forall k <- v.fields :: k in d.fields && d.fields[k] == v.fields[k]
    ensures d == v
  {
    assert forall k | k in d.fields :: k in v.fields;
    assert d.fields == v.fields;
  }

  /** A path that goes on from a place has a map there. */
  lemma {:induction false} OnTheWay(d: Tree, path: Path, m: Place)
    requires |m| < |path| && path[..|m|] == Plain(m) && PathGet(d, path).Some?
    ensures Lookup(d, m).Some? && Lookup(d, m).value.Object?
  {
    if m != [] {
      assert path[0] == path[..|m|][0] == Segment(m[0], None);
      assert path[1..][..|m| - 1] == path[..|m|][1..] == Plain(m)[1..] == Plain(m[1..]);
      OnTheWay(d.fields[m[0]], path[1..], m[1..]);
    }
  }

  lemma SameBelow(d: Tree, tree: Tree, m: Place, j: nat)
    requires j <= |m| && PathGet(d, Plain(m[..j])) == PathGet(tree, Plain(m[..j]))
    ensures Lookup(d, m) == Lookup(tree, m)
  {
    GetPlain(d, m[..j]);
    GetPlain(tree, m[..j]);
    LookupBelow(d, m[..j], m[j..]);
    LookupBelow(tree, m[..j], m[j..]);
    assert m[..j] + m[j..] == m;
  }

  /** Once every identity is put back. */
  lemma PinsAll(delta: Tree, d: Tree, tree: Tree, ids: seq<string>)
    requires PinnedTo(delta, d, tree, ids, |ids|)
    ensures Pins(d, tree, [], ids)
  {
    forall m: Place | m != [] && Settled([] + m, ids)
      ensures Lookup(d, m) == Lookup(tree, m)
    {
      assert [] + m == m;
      var j :| 0 < j <= |m| && exists q <- ids :: LeadsTo(q, m[..j]);
      var q :| q in ids && LeadsTo(q, m[..j]);
      var i :| 0 <= i < |ids| && ids[i] == q;
      assert PathGet(d, ParsePath(q).value) == PathGet(tree, ParsePath(q).value);
      SameBelow(d, tree, m, j);
    }
    forall m: Place | m != [] && Reached([] + m, ids)
      ensures Lookup(d, m).Some?
    {
      assert [] + m == m;
      var q :| q in ids && GoesThrough(q, m);
      var i :| 0 <= i < |ids| && ids[i] == q;
      OnTheWay(d, ParsePath(q).value, m);
    }
  }

  /** What merging a field's delta must give. */
  predicate Restored(k: string, prototype: Tree, d: Tree, tree: Tree)
    requires prototype.Object? && d.Object? && tree.Object? && k in tree.fields
  {
    if k !in prototype.fields then k in d.fields && d.fields[k] == tree.fields[k]
    else if k in d.fields then Merge(prototype.fields[k], d.fields[k]) == Merge(prototype.fields[k], tree.fields[k])
    else prototype.fields[k] == Merge(prototype.fields[k], tree.fields[k])
  }

  lemma {:induction false} FieldRestores(shape: Shape, i: nat, at: Place,
                                         prototype: Tree, tree: Tree, d: Tree, ids: seq<string>)
    requires prototype.Object? && tree.Object? && d.Object? && Distinct(shape) && Over(shape, tree)
    requires Placed(shape, at, prototype, tree, ids)
    requires Within(Delta(shape, Joined(at), prototype, tree, ids), d) && Within(d, tree) && Pins(d, tree, at, ids)
    requires i < |shape.children| && shape.children[i].name in tree.fields
    ensures Restored(shape.children[i].name, prototype, d, tree)
    decreases shape, 0
  {
    var f, delta := shape.children[i], Delta(shape, Joined(at), prototype, tree, ids);
    var k := f.name;
    var actual := tree.fields[k];
    JoinedMore(at, k);
    DeltaLookup(shape, |shape.children|, Joined(at), prototype, tree, ids, i);
    assert FieldPlaced(f, at, prototype, tree, ids);
    if k in delta.fields { WithinField(delta, d, k); }
    if k in d.fields { WithinField(d, tree, k); }
    if Joined(at + [k]) in ids {
      CoversAt(d, tree, at, ids, k);
    } else if k in prototype.fields && f.nested && prototype.fields[k].Object? && actual.Object? {
      var sub := if k in d.fields then d.fields[k] else Object(map[]);
      PinsBelow(d, tree, at, ids, k);
      assert OverField(f, tree);
      assert Within(Delta(f, Joined(at + [k]), prototype.fields[k], actual, ids), sub);
      Restores(f, at + [k], prototype.fields[k], actual, sub, ids);
      MergeNothing(prototype.fields[k]);
    } else if k in prototype.fields && prototype.fields[k] == actual {
      MergeSelf(actual);
      if k in d.fields { WithinMerges(d.fields[k], actual); }
    } else {
      WithinBoth(d.fields[k], actual);
    }
  }

  /** Whatever the prototype, what the delta says and a tree's own identities merge as the tree does. */
  lemma {:induction false} Restores(shape: Shape, at: Place, prototype: Tree, tree: Tree, d: Tree, ids: seq<string>)
    requires prototype.Object? && tree.Object? && d.Object? && Distinct(shape) && Over(shape, tree)
    requires Placed(shape, at, prototype, tree, ids)
    requires Within(Delta(shape, Joined(at), prototype, tree, ids), d) && Within(d, tree) && Pins(d, tree, at, ids)
    ensures Merge(prototype, d) == Merge(prototype, tree)
    decreases shape, 1
  {
    forall k | k in tree.fields
      ensures Restored(k, prototype, d, tree)
    {
      assert Names(shape, k);
      var i :| 0 <= i < |shape.children| && shape.children[i].name == k;
      FieldRestores(shape, i, at, prototype, tree, d, ids);
    }
    MergesAlike(prototype, d, tree);
  }

  lemma MergesAlike(prototype: Tree, d: Tree, tree: Tree)
    requires prototype.Object? && d.Object? && tree.Object? && Within(d, tree)
    requires forall k <- tree.fields :: Restored(k, prototype, d, tree)
    ensures Merge(prototype, d) == Merge(prototype, tree)
  {
    assert forall k | k in d.fields :: k in tree.fields;
    assert Merge(prototype, d).fields == Merge(prototype, tree).fields;
  }

  /** A fixture that can be made gives, with the prototype, what the tree and the prototype would. */
  lemma AdoptedMerges(shape: Shape, prototype: Tree, tree: Tree, ids: seq<string>)
    requires prototype.Object? && Distinct(shape) && Over(shape, tree)
    requires (forall q <- ids :: Present(tree, q)) && Placed(shape, [], prototype, tree, ids)
    ensures var r := Adopted(shape, prototype, tree, ids);
      (r.Some? ==> Merge(prototype, r.value) == Merge(prototype, tree)) && (NoIndexes(ids) ==> r.Some?)
  {
    DeltaWithin(shape, |shape.children|, "", prototype, tree, ids);
    var delta := Delta(shape, "", prototype, tree, ids);
    PinnedWithin(delta, tree, ids, |ids|);
    var r := Adopted(shape, prototype, tree, ids);
    if r.Some? {
      PinsAll(delta, r.value, tree, ids);
      Restores(shape, [], prototype, tree, r.value, ids);
    }
  }

  // ------------------------------------------------------------- strategies

  /** What the shared prototype says of a field, each tree says. */
  lemma {:induction false} SharedFieldWithin(f: Shape, path: string, trees: seq<Tree>, ids: seq<string>, i: nat)
    requires i < |trees| && forall t <- trees :: t.Object?
    ensures var r := PrototypeField(false, f, path, trees, ids);
      r.Some? ==> f.name in trees[i].fields && Within(r.value, trees[i].fields[f.name])
    decreases f, 1, 0
  {
    if PrototypeField(false, f, path, trees, ids).Some? {
      assert trees[i] in trees;
      var values := Values(trees, f.name);
      if f.nested && forall v <- values :: v.Object? {
        SharedWithin(f, |f.children|, JoinPath(path, f.name), values, ids, i);
      } else {
        CountAll(values, Usual(values).value, i);
      }
    }
  }

  /** The shared prototype says nothing that any of the trees does not: no field of it is absent from one. */
  lemma {:induction false} SharedWithin(shape: Shape, n: nat, path: string, trees: seq<Tree>, ids: seq<string>, i: nat)
    requires n <= |shape.children| && i < |trees| && forall t <- trees :: t.Object?
    ensures Within(Object(PrototypeFields(false, shape, n, path, trees, ids)), trees[i])
    decreases shape, 0, n
  {
    assert trees[i] in trees;
    if n > 0 {
      SharedWithin(shape, n - 1, path, trees, ids, i);
      SharedFieldWithin(shape.children[n - 1], path, trees, ids, i);
      var rest := Object(PrototypeFields(false, shape, n - 1, path, trees, ids));
      assert forall k | k in rest.fields :: k in trees[i].fields && Within(rest.fields[k], trees[i].fields[k]);
    }
  }

  /** The trees are of the shape, and every identity is in each. */
  predicate Adoptable(shape: Shape, trees: seq<Tree>, ids: seq<string>) {
    Distinct(shape)
    && (forall t <- trees :: Over(shape, t))
    && forall t <- trees, q <- ids :: Present(t, q)
  }

  // ------------------------------------------------------- what is not restored

  lemma {:induction false} PrototypeNames(common: bool, shape: Shape, n: nat, path: string,
                                          trees: seq<Tree>, ids: seq<string>)
    requires n <= |shape.children| && forall t <- trees :: t.Object?
    ensures forall k <- PrototypeFields(common, shape, n, path, trees, ids) ::
      exists i | 0 <= i < n :: shape.children[i].name == k
  {
    if n > 0 {
      PrototypeNames(common, shape, n - 1, path, trees, ids);
      assert shape.children[n - 1].name == shape.children[n - 1].name;
    }
  }

  lemma {:induction false} PrototypeLookup(common: bool, shape: Shape, n: nat, path: string,
                                           trees: seq<Tree>, ids: seq<string>, i: nat)
    requires i < n <= |shape.children| && (forall t <- trees :: t.Object?) && Distinct(shape)
    ensures var m, f := PrototypeFields(common, shape, n, path, trees, ids), shape.children[i];
      PrototypeField(common, f, path, trees, ids) == if f.name in m then Some(m[f.name]) else None
  {
    if i == n - 1 {
      PrototypeNames(common, shape, n - 1, path, trees, ids);
    } else {
      PrototypeLookup(common, shape, n - 1, path, trees, ids, i);
    }
  }

  /** A map a tree and the shared prototype both have for a nested field was shared field by field. */
  lemma SharedNested(f: Shape, path: string, trees: seq<Tree>, ids: seq<string>, i: nat)
    requires i < |trees| && (forall t <- trees :: t.Object?) && f.nested
    requires PrototypeField(false, f, path, trees, ids).Some?
    requires f.name in trees[i].fields && trees[i].fields[f.name].Object?
    ensures forall t <- trees :: f.name in t.fields
    ensures var values := Values(trees, f.name);
      (forall v <- values :: v.Object?)
      && PrototypeField(false, f, path, trees, ids)
         == Some(Object(PrototypeFields(false, f, |f.children|, JoinPath(path, f.name), values, ids)))
  {
    assert trees[i] in trees;
    var values := Values(trees, f.name);
    assert values[i] == trees[i].fields[f.name] && values[i] in values;
    if exists v <- values :: !v.Object? {
      var usual := Usual(values).value;
      forall j | 0 <= j < |values|
        ensures values[j] == usual
      {
        CountAll(values, usual, j);
      }
    }
  }

  /** A place of a tree that no identity's path leads to or goes on from, if it is a map. */
  predicate Missed(m: Place, at: Place, v: Tree, ids: seq<string>) {
    Lookup(v, m).Some? && !Settled(at + m, ids) && (Lookup(v, m).value.Object? ==> !Reached(at + m, ids))
  }

  lemma {:induction false} FindMissed(v: Tree, at: Place, ids: seq<string>) returns (m: Place)
    requires !Covered(v, at, ids)
    ensures Missed(m, at, v, ids)
    decreases v
  {
    m := [];
    assert at + [] == at;
    if v.Object? && Reached(at, ids) {
      var k :| k in v.fields && !Covered(v.fields[k], at + [k], ids);
      var rest := FindMissed(v.fields[k], at + [k], ids);
      m := [k] + rest;
      assert m[1..] == rest && at + m == at + [k] + rest;
    }
  }

  /** A place so missed that the fixture and the prototype both leave out. */
  predicate LeftOut(m: Place, at: Place, prototype: Tree, delta: Tree, tree: Tree, ids: seq<string>) {
    m != [] && Missed(m, at, tree, ids) && Lookup(prototype, m) == None && Lookup(delta, m) == None
  }

  lemma {:induction false} FindLeftOut(shape: Shape, at: Place, trees: seq<Tree>, ids: seq<string>, i: nat)
    returns (m: Place)
    requires i < |trees| && (forall t <- trees :: t.Object?) && Distinct(shape)
    requires var p := Object(PrototypeFields(false, shape, |shape.children|, Joined(at), trees, ids));
      !Placed(shape, at, p, trees[i], ids)
    ensures var p := Object(PrototypeFields(false, shape, |shape.children|, Joined(at), trees, ids));
      LeftOut(m, at, p, Delta(shape, Joined(at), p, trees[i], ids), trees[i], ids)
    decreases shape
  {
    assert trees[i] in trees;
    var p, t := Object(PrototypeFields(false, shape, |shape.children|, Joined(at), trees, ids)), trees[i];
    var delta := Delta(shape, Joined(at), p, t, ids);
    var j :| 0 <= j < |shape.children| && !FieldPlaced(shape.children[j], at, p, t, ids);
    var f := shape.children[j];
    JoinedMore(at, f.name);
    PrototypeLookup(false, shape, |shape.children|, Joined(at), trees, ids, j);
    DeltaLookup(shape, |shape.children|, Joined(at), p, t, ids, j);
    if Joined(at + [f.name]) in ids {
      var rest := FindMissed(t.fields[f.name], at + [f.name], ids);
      m := [f.name] + rest;
      LeftOutHere(at, p, delta, t, ids, f.name, rest);
    } else {
      SharedNested(f, Joined(at), trees, ids, i);
      var rest := FindLeftOut(f, at + [f.name], Values(trees, f.name), ids, i);
      m := [f.name] + rest;
      var below := Delta(f, Joined(at + [f.name]), p.fields[f.name], t.fields[f.name], ids);
      LeftOutBelow(at, p, delta, t, ids, f.name, rest, below);
    }
  }

  lemma LeftOutHere(at: Place, p: Tree, delta: Tree, t: Tree, ids: seq<string>, k: string, rest: Place)
    requires p.Object? && delta.Object? && t.Object? && k in t.fields && k !in p.fields && k !in delta.fields
    requires Missed(rest, at + [k], t.fields[k], ids)
    ensures LeftOut([k] + rest, at, p, delta, t, ids)
  {
    var m := [k] + rest;
    assert m[0] == k && m[1..] == rest && at + m == at + [k] + rest;
  }

  lemma LeftOutBelow(at: Place, p: Tree, delta: Tree, t: Tree, ids: seq<string>, k: string, rest: Place, below: Tree)
    requires p.Object? && delta.Object? && t.Object? && k in t.fields && k in p.fields
    requires k in delta.fields ==> delta.fields[k] == below
    requires LeftOut(rest, at + [k], p.fields[k], below, t.fields[k], ids)
    ensures LeftOut([k] + rest, at, p, delta, t, ids)
  {
    var m := [k] + rest;
    assert m[0] == k && m[1..] == rest && at + m == at + [k] + rest;
  }

  /** A path and a place part before either ends, or the path goes into a list there. */
  predicate Apart(path: Path, m: Place) {
    path != [] && m != [] && (path[0].index.Some? || path[0].name != m[0] || Apart(path[1..], m[1..]))
  }

  /** Setting a path leaves nothing where there was none, at a place apart from it. */
  lemma {:induction false} SetElsewhere(d: Tree, path: Path, v: Tree, m: Place)
    requires Lookup(d, m) == None && Apart(path, m) && PathSet(d, path, v).Some?
    ensures Lookup(PathSet(d, path, v).value, m) == None
    decreases |path|
  {
    var s := path[0];
    if s.name == m[0] && s.index == None {
      var next := if s.name in d.fields && d.fields[s.name] != Null then d.fields[s.name] else Object(map[]);
      SetElsewhere(next, path[1..], v, m[1..]);
    } else if s.name == m[0] {
      GetOne(d, s.name);
      OneName(m);
    }
  }

  lemma {:induction false} NotApart(path: Path, m: Place)
    ensures Apart(path, m) || if |path| <= |m| then path == Plain(m[..|path|]) else path[..|m|] == Plain(m)
  {
    if path != [] && m != [] && !Apart(path, m) {
      NotApart(path[1..], m[1..]);
      assert path[0] == Segment(m[0], None);
      if |path| <= |m| {
        assert m[..|path|][1..] == m[1..][..|path| - 1];
        assert path == [path[0]] + path[1..] && Plain(m[..|path|]) == [path[0]] + Plain(m[1..][..|path| - 1]);
      } else {
        assert path[..|m|] == [path[0]] + path[1..][..|m| - 1] && Plain(m) == [path[0]] + Plain(m[1..]);
      }
    }
  }

  lemma {:induction false} JoinedNames(m: Place)
    requires m != [] && m[0] != "" && forall n <- m :: '.' !in n
    ensures Joined(m) != "" && Split(Joined(m)) == m
  {
    var k := m[|m| - 1];
    assert k in m;
    if |m| == 1 {
      assert m[..0] == [] && Joined(m[..0]) == "" && m == [k];
      SplitOne(k);
    } else {
      var init := m[..|m| - 1];
      assert init[0] == m[0] && forall n <- init :: n in m;
      JoinedNames(init);
      SplitAt(Joined(init), k);
      assert Joined(m) == Joined(init) + (['.'] + k);
      SplitOne(k);
      assert m == init + [k];
    }
  }

  /** A place of plain names is where its own path leads. */
  lemma PlainSettled(m: Place, ids: seq<string>)
    requires m != [] && m[0] != "" && (forall n <- m :: IsPlain(n)) && Joined(m) in ids
    ensures Settled(m, ids)
  {
    JoinedNames(m);
    PlainSegments(m);
    assert m[..|m|] == m;
    assert LeadsTo(Joined(m), m[..|m|]);
  }

  lemma PathsApart(m: Place, ids: seq<string>, q: string)
    requires !Settled(m, ids) && !Reached(m, ids) && q in ids && ParsePath(q).Some?
    ensures Apart(ParsePath(q).value, m)
  {
    var path := ParsePath(q).value;
    PathPlain(q);
    NotApart(path, m);
    assert |path| <= |m| && path == Plain(m[..|path|]) ==> LeadsTo(q, m[..|path|]);
    assert |m| < |path| && path[..|m|] == Plain(m) ==> GoesThrough(q, m);
  }

  /** Of a tree that has every identity, what is missed is no map that a path goes through. */
  lemma MissedApart(tree: Tree, ids: seq<string>, m: Place)
    requires (forall q <- ids :: Present(tree, q)) && Missed(m, [], tree, ids)
    ensures !Settled(m, ids) && !Reached(m, ids)
  {
    assert [] + m == m;
    if Reached(m, ids) {
      var q :| q in ids && GoesThrough(q, m);
      OnTheWay(tree, ParsePath(q).value, m);
    }
  }

  lemma {:induction false} PinnedElsewhere(delta: Tree, tree: Tree, ids: seq<string>, n: nat, m: Place)
    requires n <= |ids| && Lookup(delta, m) == None && Pinned(delta, tree, ids, n).Some?
    requires forall q <- ids :: ParsePath(q).Some? && Apart(ParsePath(q).value, m)
    ensures Lookup(Pinned(delta, tree, ids, n).value, m) == None
  {
    if n > 0 {
      PinnedElsewhere(delta, tree, ids, n - 1, m);
      assert ids[n - 1] in ids;
      SetElsewhere(Pinned(delta, tree, ids, n - 1).value, ParsePath(ids[n - 1]).value, MustGet(tree, ids[n - 1]), m);
    }
  }

  lemma {:induction false} MergedAbsent(p: Tree, d: Tree, m: Place)
    requires m != [] && Lookup(p, m) == None && Lookup(d, m) == None
    ensures Lookup(Merge(p, d), m) == None
  {
    if p.Object? && d.Object? && m[0] in p.fields && m[0] in d.fields {
      GetOne(p, m[0]);
      OneName(m);
      MergedAbsent(p.fields[m[0]], d.fields[m[0]], m[1..]);
    }
  }

  /** Something left out that no identity's path leads to is lost. */
  lemma NotPlacedLost(shape: Shape, trees: seq<Tree>, ids: seq<string>, i: nat)
    requires Adoptable(shape, trees, ids) && i < |trees|
    requires !Placed(shape, [], Prototype(false, shape, trees, ids), trees[i], ids)
    ensures var prototype := Prototype(false, shape, trees, ids);
      var r := Adopted(shape, prototype, trees[i], ids);
      r.Some? ==> Merge(prototype, r.value) != trees[i]
  {
    assert trees[i] in trees;
    var prototype := Prototype(false, shape, trees, ids);
    var m := FindLeftOut(shape, [], trees, ids, i);
    MissedApart(trees[i], ids, m);
    var r := Adopted(shape, prototype, trees[i], ids);
    if r.Some? {
      forall q | q in ids
        ensures ParsePath(q).Some? && Apart(ParsePath(q).value, m)
      {
        assert Present(trees[i], q);
        PathsApart(m, ids, q);
      }
      PinnedElsewhere(Delta(shape, "", prototype, trees[i], ids), trees[i], ids, |ids|, m);
      MergedAbsent(prototype, r.value, m);
    }
  }

  /**
   By the shared strategy a tree whose identities can be put back is restored exactly when to each field its
   delta leaves out, or to all in it, an identity's path leads; and they can be unless a path goes into a list.
   */
  lemma SharedRestores(shape: Shape, trees: seq<Tree>, ids: seq<string>, i: nat)
    requires Adoptable(shape, trees, ids) && i < |trees|
    ensures var prototype := Prototype(false, shape, trees, ids);
      var r := Adopted(shape, prototype, trees[i], ids);
      (r.Some? ==> (Merge(prototype, r.value) == trees[i] <==> Placed(shape, [], prototype, trees[i], ids)))
      && (NoIndexes(ids) ==> r.Some?)
  {
    assert trees[i] in trees;
    var prototype := Prototype(false, shape, trees, ids);
    AdoptedSucceeds(shape, prototype, trees[i], ids);
    if Placed(shape, [], prototype, trees[i], ids) {
      AdoptedMerges(shape, prototype, trees[i], ids);
      SharedWithin(shape, |shape.children|, "", trees, ids, i);
      WithinMerges(prototype, trees[i]);
    } else {
      NotPlacedLost(shape, trees, ids, i);
    }
  }

  lemma AdoptedSucceeds(shape: Shape, prototype: Tree, tree: Tree, ids: seq<string>)
    requires prototype.Object? && tree.Object? && forall q <- ids :: Present(tree, q)
    ensures NoIndexes(ids) ==> Adopted(shape, prototype, tree, ids).Some?
  {
    DeltaWithin(shape, |shape.children|, "", prototype, tree, ids);
    PinnedWithin(Delta(shape, "", prototype, tree, ids), tree, ids, |ids|);
  }

  /** Every name of a shape is one a path can go through. */
  predicate PlainNames(shape: Shape)
    decreases shape
  {
    forall i | 0 <= i < |shape.children| :: IsPlain(shape.children[i].name) && PlainNames(shape.children[i])
  }

  /**
   So all are, whatever the trees and the identities, of a shape without dots and brackets in its names, and
   with a name for each field at the root.
   */
  lemma {:induction false} PlainPlaced(shape: Shape, at: Place, prototype: Tree, tree: Tree, ids: seq<string>)
    requires prototype.Object? && tree.Object? && PlainNames(shape)
    requires (if at == [] then !Names(shape, "") else at[0] != "") && forall n <- at :: IsPlain(n)
    ensures Placed(shape, at, prototype, tree, ids)
    decreases shape
  {
    forall i | 0 <= i < |shape.children|
      ensures FieldPlaced(shape.children[i], at, prototype, tree, ids)
    {
      var f := shape.children[i];
      var m := at + [f.name];
      assert m[0] != "" && forall n <- m :: IsPlain(n);
      if f.name in tree.fields {
        if Joined(m) in ids {
          PlainSettled(m, ids);
        } else if f.nested && f.name in prototype.fields
                  && prototype.fields[f.name].Object? && tree.fields[f.name].Object? {
          PlainPlaced(f, m, prototype.fields[f.name], tree.fields[f.name], ids);
        }
      }
    }
  }

  /** A path of one name that has a dot leads elsewhere. */
  lemma DottedPath()
    ensures ParsePath("a.b") == Some(Plain(["a", "b"])) && Joined(["a.b"]) == "a.b" && !Settled(["a.b"], ["a.b"])
  {
    SplitAt("a", "b");
    SplitOne("a");
    SplitOne("b");
    assert "a" + ['.'] + "b" == "a.b" && ["a"] + ["b"] == ["a", "b"];
    PlainSegments(["a", "b"]);
    var m := ["a.b"];
    assert m[..0] == [] && m[..1] == m;
    assert |Plain(m)| != |Plain(["a", "b"])|;
  }

  const B: Shape := Shape("b", false, [])
  const A: Shape := Shape("a", true, [B])
  const DOTTED: Shape := Shape("", true, [Shape("a.b", false, []), A])

  /** A tree of a field "a.b", and a field "a" with a field "b". */
  function DottedTree(x: Tree, y: Tree): (t: Tree)
    ensures t.Object?
  {
    Object(map["a.b" := x, "a" := Object(map["b" := y])])
  }

  lemma DottedShape()
    ensures Distinct(DOTTED) && Names(DOTTED, "a.b") && Names(DOTTED, "a") && Names(A, "b")
  {
    assert DOTTED.children[0].name == "a.b" && DOTTED.children[1] == A && A.children[0] == B;
    assert Distinct(B) && Distinct(A) && Distinct(DOTTED.children[0]);
  }

  lemma DottedOver(x: Tree, y: Tree)
    ensures Over(DOTTED, DottedTree(x, y)) && Present(DottedTree(x, y), "a.b")
  {
    var tree := DottedTree(x, y);
    var below := tree.fields["a"];
    DottedShape();
    assert OverField(B, below) && Over(A, below) && OverField(A, tree) && OverField(DOTTED.children[0], tree);
    DottedPath();
    GetPlain(tree, ["a", "b"]);
    assert ["a", "b"][1..] == ["b"];
    GetOne(below, "b");
  }

  /** A field whose name has a dot is left out for the identity below another. */
  lemma DottedNotPlaced(x: Tree, y: Tree, prototype: Tree)
    requires prototype.Object?
    ensures !Placed(DOTTED, [], prototype, DottedTree(x, y), ["a.b"])
  {
    DottedPath();
    assert [] + ["a.b"] == ["a.b"];
    assert !Reached(["a.b"], ["a.b"]) by {
      assert Plain(["a", "b"])[..1][0] != Plain(["a.b"])[0];
    }
    assert !FieldPlaced(DOTTED.children[0], [], prototype, DottedTree(x, y), ["a.b"]);
  }

  function DottedTrees(xs: seq<Tree>, ys: seq<Tree>): (trees: seq<Tree>)
    requires |xs| == |ys|
    ensures |trees| == |xs| && forall t <- trees :: t.Object?
  {
    seq(|xs|, i requires 0 <= i < |xs| => DottedTree(xs[i], ys[i]))
  }

  lemma DottedAdoptable(xs: seq<Tree>, ys: seq<Tree>)
    requires |xs| == |ys|
    ensures Adoptable(DOTTED, DottedTrees(xs, ys), ["a.b"])
  {
    DottedShape();
    forall t | t in DottedTrees(xs, ys)
      ensures Over(DOTTED, t) && Present(t, "a.b")
    {
      var i :| 0 <= i < |xs| && t == DottedTree(xs[i], ys[i]);
      DottedOver(xs[i], ys[i]);
    }
  }

  /** So in every one of such trees, however many and whatever their values, it is lost: another tree is restored. */
  lemma DottedLost(xs: seq<Tree>, ys: seq<Tree>, i: nat)
    requires |xs| == |ys| && i < |xs|
    ensures var trees := DottedTrees(xs, ys);
      var prototype := Prototype(false, DOTTED, trees, ["a.b"]);
      var r := Adopted(DOTTED, prototype, trees[i], ["a.b"]);
      r.Some? && Merge(prototype, r.value) != trees[i]
  {
    var trees := DottedTrees(xs, ys);
    DottedAdoptable(xs, ys);
    DottedNotPlaced(xs[i], ys[i], Prototype(false, DOTTED, trees, ["a.b"]));
    DottedPath();
    SharedRestores(DOTTED, trees, ["a.b"], i);
  }

  /** By either strategy a tree so placed is restored exactly when it has every field the prototype has. */
  lemma AdoptedRestores(common: bool, shape: Shape, trees: seq<Tree>, ids: seq<string>, i: nat)
    requires Adoptable(shape, trees, ids) && i < |trees|
    requires Placed(shape, [], Prototype(common, shape, trees, ids), trees[i], ids)
    ensures var prototype := Prototype(common, shape, trees, ids);
      var r := Adopted(shape, prototype, trees[i], ids);
      r.Some? ==> (Merge(prototype, r.value) == trees[i] <==> Fits(prototype, trees[i]))
  {
    assert trees[i] in trees;
    var prototype := Prototype(common, shape, trees, ids);
    AdoptedMerges(shape, prototype, trees[i], ids);
    MergeKeeps(prototype, trees[i]);
  }

  /** The common strategy adds to a map that two trees fill and a third leaves empty. */
  lemma CommonAdds()
    ensures var full, empty := Object(map["m" := Object(map["a" := Null])]), Object(map["m" := Object(map[])]);
      var shape, trees := Shape("", true, [Shape("m", false, [])]), [full, full, empty];
      Adoptable(shape, trees, []) && !Fits(Prototype(true, shape, trees, []), empty)
  {
    var filled, none := Object(map["a" := Null]), Object(map[]);
    var full, empty := Object(map["m" := filled]), Object(map["m" := none]);
    var m := Shape("m", false, []);
    var shape, trees := Shape("", true, [m]), [full, full, empty];
    assert shape.children[0] == m;
    assert Distinct(m) && Names(shape, "m");
    assert Values(trees, "m") == [filled, filled, none];
    assert "a" in filled.fields && filled != none;
    UsualOfThree(filled, none);
    assert PrototypeField(true, m, "", trees, []) == Some(filled);
    assert PrototypeFields(true, shape, 0, "", trees, []) == map[];
    assert Prototype(true, shape, trees, []).fields == map["m" := filled];
    assert !Fits(filled, none);
  }

  // ---------------------------------------------------------------- methods

  /** Whether a field is absent from any tree, and whether it is a map in all. */
  method Survey(trees: seq<Tree>, name: string) returns (anyAbsent: bool, allMaps: bool)
    requires forall t <- trees :: t.Object?
    ensures anyAbsent <==> exists t <- trees :: name !in t.fields
    ensures !anyAbsent ==> (allMaps <==> forall v <- Values(trees, name) :: v.Object?)
  {
    anyAbsent, allMaps := false, true;
    for j := 0 to |trees|
      invariant anyAbsent <==> exists l | 0 <= l < j :: name !in trees[l].fields
      invariant !anyAbsent ==> (allMaps <==> forall l | 0 <= l < j :: trees[l].fields[name].Object?)
    {
      anyAbsent := anyAbsent || name !in trees[j].fields;
      allMaps := allMaps && name in trees[j].fields && trees[j].fields[name].Object?;
    }
    if !anyAbsent {
      var values := Values(trees, name);
      assert forall l | 0 <= l < |trees| :: values[l] == trees[l].fields[name] && values[l] in values;
    }
  }

  /** sharedTree or modalTree: a loop over the shape's fields. */
  method PrototypeTree(common: bool, shape: Shape, path: string, trees: seq<Tree>, ids: seq<string>)
    returns (out: map<string, Tree>)
    requires forall t <- trees :: t.Object?
    ensures out == PrototypeFields(common, shape, |shape.children|, path, trees, ids)
    decreases shape
  {
    out := map[];
    for i := 0 to |shape.children|
      invariant out == PrototypeFields(common, shape, i, path, trees, ids)
    {
      var f := shape.children[i];
      if JoinPath(path, f.name) in ids { continue; }
      var anyAbsent, allMaps := Survey(trees, f.name);
      if anyAbsent { continue; }
      var values := Values(trees, f.name);
      if f.nested && allMaps {
        var nested := PrototypeTree(common, f, JoinPath(path, f.name), values, ids);
        if common || nested != map[] { out := out[f.name := Object(nested)]; }
      } else {
        var best, count := MostFrequent(values);
        if best.Some? && (common || count == |values|) { out := out[f.name := best.value]; }
      }
    }
  }

  /** deltaTree: likewise. */
  method DeltaTree(shape: Shape, path: string, prototype: Tree, tree: Tree, ids: seq<string>)
    returns (out: map<string, Tree>)
    requires prototype.Object? && tree.Object?
    ensures out == DeltaFields(shape, |shape.children|, path, prototype, tree, ids)
    decreases shape
  {
    out := map[];
    for i := 0 to |shape.children|
      invariant out == DeltaFields(shape, i, path, prototype, tree, ids)
    {
      var f := shape.children[i];
      if JoinPath(path, f.name) in ids || f.name !in tree.fields { continue; }
      var actual := tree.fields[f.name];
      var expected := if f.name in prototype.fields then Some(prototype.fields[f.name]) else None;
      if f.nested && expected.Some? && expected.value.Object? && actual.Object? {
        var nested := DeltaTree(f, JoinPath(path, f.name), expected.value, actual, ids);
        if nested != map[] { out := out[f.name := Object(nested)]; }
      } else if expected == None || expected.value != actual {
        out := out[f.name := actual];
      }
    }
  }
}
