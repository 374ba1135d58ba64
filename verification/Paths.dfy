/**
 Dotted paths into trees (internal/fixtures/paths.go): a text is split at its dots into the names it goes
 through, each perhaps with an index into a list, and the value there is read, or set.
 */
module Paths {
  import opened Wrappers
  import opened Numbers
  import opened FixtureTrees

  datatype Segment = Segment(name: string, index: Option<nat>)

  type Path = seq<Segment>

  const INT32: nat := 0x8000_0000

  /** The names of a text with one more character in front. */
  function Grown(c: char, names: seq<string>): (r: seq<string>)
    requires names != []
    ensures r != []
  {
    if c == '.' then [""] + names else [[c] + names[0]] + names[1..]
  }

  function Split(s: string): (r: seq<string>)
    ensures r != []
  {
    if s == "" then [""] else Grown(s[0], Split(s[1..]))
  }

  /** Where a bracket is first, or how long the text is. */
  function Bracket(s: string): (k: nat)
    ensures k <= |s| && forall j | 0 <= j < k :: s[j] != '['
  {
    if s == "" || s[0] == '[' then 0 else 1 + Bracket(s[1..])
  }

  /** A name, with what is in brackets after it as its index: a negative one is none. */
  function SegmentOf(raw: string): Option<Segment> {
    var b := Bracket(raw);
    if b == |raw| then Some(Segment(raw, None))
    else
      match ParseInt(if |raw| > b + 1 then raw[b + 1..|raw| - 1] else "", INT32)
      case None => None
      case Some(n) => Some(Segment(raw[..b], if n < 0 then None else Some(n)))
  }

  function Segments(raws: seq<string>): Option<Path> {
    if raws == [] then Some([])
    else
      match (SegmentOf(raws[0]), Segments(raws[1..]))
      case (Some(s), Some(rest)) => Some([s] + rest)
      case _ => None
  }

  function ParsePath(path: string): Option<Path> {
    Segments(Split(path))
  }

  function Item(list: Tree, index: nat): Option<Tree> {
    if list.List? && index < |list.items| then Some(list.items[index]) else None
  }

  function PathGet(tree: Tree, path: Path): Option<Tree> {
    if path == [] then Some(tree)
    else if !tree.Object? || path[0].name !in tree.fields then None
    else
      var next := tree.fields[path[0].name];
      match path[0].index
      case None => PathGet(next, path[1..])
      case Some(i) => match Item(next, i) { case None => None case Some(item) => PathGet(item, path[1..]) }
  }

  /** Sets a value at its path, through maps made where there is nothing; none where there is no map or item. */
  function PathSet(tree: Tree, path: Path, v: Tree): Option<Tree>
    decreases |path|
  {
    if path == [] then Some(v)
    else if !tree.Object? then None
    else
      var s := path[0];
      var there := s.name in tree.fields;
      match s.index
      case None =>
        var next := if there && tree.fields[s.name] != Null then tree.fields[s.name] else Object(map[]);
        (match PathSet(next, path[1..], v)
         case None => None
         case Some(n) => Some(Object(tree.fields[s.name := n])))
      case Some(i) =>
        if !there || Item(tree.fields[s.name], i) == None then None
        else
          var items := tree.fields[s.name].items;
          match PathSet(items[i], path[1..], v)
          case None => None
          case Some(n) => Some(Object(tree.fields[s.name := List(items[i := n])]))
  }

  /** mustGet: null where there is nothing. */
  function MustGet(tree: Tree, path: string): Tree {
    match ParsePath(path)
    case None => Null
    case Some(p) => match PathGet(tree, p) { case None => Null case Some(v) => v }
  }

  /** pathSet, of a path as it is written. */
  function SetAt(tree: Tree, path: string, v: Tree): Option<Tree> {
    match ParsePath(path)
    case None => None
    case Some(p) => PathSet(tree, p, v)
  }

  // ------------------------------------------------------- names, with no index

  /** A path through these names alone. */
  function Plain(names: seq<string>): (p: Path)
    ensures |p| == |names|
  {
    seq(|names|, i requires 0 <= i < |names| => Segment(names[i], None))
  }

  function Lookup(tree: Tree, names: seq<string>): Option<Tree> {
    if names == [] then Some(tree)
    else if tree.Object? && names[0] in tree.fields then Lookup(tree.fields[names[0]], names[1..])
    else None
  }

  lemma {:induction false} GetPlain(tree: Tree, names: seq<string>)
    ensures PathGet(tree, Plain(names)) == Lookup(tree, names)
  {
    if names != [] {
      assert Plain(names)[1..] == Plain(names[1..]);
      if tree.Object? && names[0] in tree.fields { GetPlain(tree.fields[names[0]], names[1..]); }
    }
  }

  /** What is below a place is in what is there. */
  lemma {:induction false} LookupBelow(tree: Tree, a: seq<string>, b: seq<string>)
    ensures Lookup(tree, a + b) == match Lookup(tree, a) case None => None case Some(v) => Lookup(v, b)
  {
    if a == [] {
      assert a + b == b;
    } else {
      assert (a + b)[1..] == a[1..] + b;
      if tree.Object? && a[0] in tree.fields { LookupBelow(tree.fields[a[0]], a[1..], b); }
    }
  }

  predicate IsPlain(s: string) {
    '.' !in s && '[' !in s
  }

  lemma {:induction false} PlainSegment(s: string)
    requires '[' !in s
    ensures Bracket(s) == |s| && SegmentOf(s) == Some(Segment(s, None))
  {
    BracketAtEnd(s);
  }

  lemma {:induction false} BracketAtEnd(s: string)
    requires '[' !in s
    ensures Bracket(s) == |s|
  {
    if s != "" {
      assert s[0] in s && forall c <- s[1..] :: c in s;
      BracketAtEnd(s[1..]);
    }
  }

  lemma {:induction false} PlainSegments(names: seq<string>)
    requires forall n <- names :: '[' !in n
    ensures Segments(names) == Some(Plain(names))
  {
    if names != [] {
      assert names[0] in names && forall n <- names[1..] :: n in names;
      PlainSegment(names[0]);
      PlainSegments(names[1..]);
      assert [Segment(names[0], None)] + Plain(names[1..]) == Plain(names);
    }
  }

  lemma {:induction false} SplitOne(s: string)
    requires '.' !in s
    ensures Split(s) == [s]
  {
    if s != "" {
      assert s[0] in s && forall c <- s[1..] :: c in s;
      SplitOne(s[1..]);
      assert [s[0]] + s[1..] == s;
    }
  }

  lemma GrownBefore(c: char, names: seq<string>, more: seq<string>)
    requires names != []
    ensures Grown(c, names + more) == Grown(c, names) + more
  {
    if c != '.' {
      assert (names + more)[1..] == names[1..] + more;
    }
  }

  lemma {:induction false} SplitAt(a: string, b: string)
    ensures Split(a + (['.'] + b)) == Split(a) + Split(b)
  {
    var s := a + (['.'] + b);
    if a == "" {
      assert s == ['.'] + b && s[1..] == b;
    } else {
      assert s[0] == a[0] && s[1..] == a[1..] + (['.'] + b);
      SplitAt(a[1..], b);
      GrownBefore(a[0], Split(a[1..]), Split(b));
    }
  }

  lemma {:induction false} SplitNoDot(s: string)
    ensures forall r <- Split(s) :: '.' !in r
  {
    if s != "" { SplitNoDot(s[1..]); }
  }

  /** The names a path goes through have no dot and no bracket. */
  lemma {:induction false} SegmentsPlain(raws: seq<string>)
    requires (forall r <- raws :: '.' !in r) && Segments(raws).Some?
    ensures forall s <- Segments(raws).value :: IsPlain(s.name)
    ensures |Segments(raws).value| == |raws|
  {
    if raws != [] {
      assert raws[0] in raws && forall r <- raws[1..] :: r in raws;
      SegmentsPlain(raws[1..]);
      BracketIn(raws[0]);
    }
  }

  lemma BracketIn(raw: string)
    requires '.' !in raw && SegmentOf(raw).Some?
    ensures IsPlain(SegmentOf(raw).value.name)
  {
    var name := SegmentOf(raw).value.name;
    assert name == raw[..Bracket(raw)];
    assert forall c <- name :: c in raw;
  }

  lemma PathPlain(path: string)
    requires ParsePath(path).Some?
    ensures ParsePath(path).value != [] && forall s <- ParsePath(path).value :: IsPlain(s.name)
  {
    SplitNoDot(path);
    SegmentsPlain(Split(path));
  }
}
