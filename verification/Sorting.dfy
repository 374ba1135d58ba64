/** The standard library's stable sort, in place, and what it leaves: of equal items, the earlier is first. */
module Sorting {
  import opened Sequences

  /** Says which of two items must come first. */
  type Order<!T> = (T, T) -> bool

  /** Puts an item before the first that is not less than it. */
  function Insert<T>(x: T, sorted: seq<T>, less: Order<T>): (r: seq<T>)
    ensures |r| == 1 + |sorted|
  {
    if sorted == [] || !less(sorted[0], x) then [x] + sorted else [sorted[0]] + Insert(x, sorted[1..], less)
  }

  function Sorted<T>(xs: seq<T>, less: Order<T>): (r: seq<T>)
    ensures |r| == |xs|
  {
    if xs == [] then [] else Insert(xs[0], Sorted(xs[1..], less), less)
  }

  lemma {:induction false} InsertHas<T>(x: T, sorted: seq<T>, less: Order<T>)
    ensures multiset(Insert(x, sorted, less)) == multiset{x} + multiset(sorted)
  {
    if sorted != [] {
      Uncons(sorted);
      InsertHas(x, sorted[1..], less);
    }
  }

  /** Sorting keeps every item, as often as it is there. */
  lemma {:induction false} SortedHas<T>(xs: seq<T>, less: Order<T>)
    ensures multiset(Sorted(xs, less)) == multiset(xs)
  {
    if xs != [] {
      Uncons(xs);
      SortedHas(xs[1..], less);
      InsertHas(xs[0], Sorted(xs[1..], less), less);
    }
  }

  // ------------------------------------------------------------- its order

  predicate Weak<T>(less: Order<T>, p: T, q: T, r: T) {
    (less(p, q) ==> !less(q, p)) && (!less(q, p) && !less(r, q) ==> !less(r, p))
  }

  /** Of two items not both come first, and what is not before a later one is not before an earlier. */
  ghost predicate WeakOrder<T(!new)>(less: Order<T>) {
    forall p, q, r :: Weak(less, p, q, r)
  }

  predicate Ascends<T>(s: seq<T>, less: Order<T>) {
    forall j, k | 0 <= j < k < |s| :: !less(s[k], s[j])
  }

  lemma {:induction false} InsertAscends<T(!new)>(x: T, s: seq<T>, less: Order<T>)
    requires WeakOrder(less) && Ascends(s, less)
    ensures Ascends(Insert(x, s, less), less)
  {
    if s == [] || !less(s[0], x) {
      forall k | 0 <= k < |s|
        ensures !less(s[k], x)
      {
        assert Weak(less, x, s[0], s[k]);
      }
    } else {
      InsertAscends(x, s[1..], less);
      var r := Insert(x, s[1..], less);
      forall k | 0 <= k < |r|
        ensures !less(r[k], s[0])
      {
        InsertHas(x, s[1..], less);
        assert Weak(less, s[0], x, x);
        assert r[k] in multiset(r);
        assert r[k] == x || r[k] in s[1..];
      }
    }
  }

  lemma {:induction false} SortedAscends<T(!new)>(xs: seq<T>, less: Order<T>)
    requires WeakOrder(less)
    ensures Ascends(Sorted(xs, less), less)
  {
    if xs != [] {
      SortedAscends(xs[1..], less);
      InsertAscends(xs[0], Sorted(xs[1..], less), less);
    }
  }

  /** Of any two of the items, one comes first. */
  predicate Apart<T(==)>(xs: seq<T>, less: Order<T>) {
    forall p, q | p in xs && q in xs :: !less(p, q) && !less(q, p) ==> p == q
  }

  lemma FirstIsLeast<T(!new)>(a: seq<T>, p: T, less: Order<T>)
    requires WeakOrder(less) && Ascends(a, less) && a != [] && p in a
    ensures !less(p, a[0])
  {
    var k :| 0 <= k < |a| && a[k] == p;
    assert Weak(less, p, p, p);
  }

  lemma FirstIsSame<T(!new)>(a: seq<T>, b: seq<T>, less: Order<T>)
    requires WeakOrder(less) && Ascends(a, less) && Ascends(b, less) && multiset(a) == multiset(b)
    requires Apart(a, less) && a != [] && b != []
    ensures a[0] == b[0]
  {
    assert a[0] in multiset(b) && b[0] in multiset(a);
    FirstIsLeast(a, b[0], less);
    FirstIsLeast(b, a[0], less);
  }

  lemma RestIsSame<T>(a: seq<T>, b: seq<T>)
    requires a != [] && b != [] && a[0] == b[0] && multiset(a) == multiset(b)
    ensures multiset(a[1..]) == multiset(b[1..])
  {
    Uncons(a);
    Uncons(b);
    assert multiset(a[1..]) == multiset(a) - multiset{a[0]};
    assert multiset(b[1..]) == multiset(b) - multiset{b[0]};
  }

  /** Items of which one always comes first have one order. */
  lemma {:induction false} AscendingUnique<T(!new)>(a: seq<T>, b: seq<T>, less: Order<T>)
    requires WeakOrder(less) && Ascends(a, less) && Ascends(b, less)
    requires multiset(a) == multiset(b) && Apart(a, less)
    ensures a == b
  {
    assert |multiset(a)| == |a| && |multiset(b)| == |b|;
    if a != [] {
      FirstIsSame(a, b, less);
      RestIsSame(a, b);
      assert forall p | p in a[1..] :: p in a;
      AscendingUnique(a[1..], b[1..], less);
      Uncons(a);
      Uncons(b);
    }
  }

  // ------------------------------------------------------------------ texts

  /** Texts in the order of their bytes. */
  predicate TextLess(a: string, b: string) {
    if a == [] || b == [] then a == [] && b != []
    else if a[0] != b[0] then a[0] < b[0]
    else TextLess(a[1..], b[1..])
  }

  lemma {:induction false} TextOrder(a: string, b: string, c: string)
    ensures !TextLess(a, a)
    ensures a == b || TextLess(a, b) || TextLess(b, a)
    ensures !(TextLess(a, b) && TextLess(b, a))
    ensures TextLess(a, b) && TextLess(b, c) ==> TextLess(a, c)
  {
    if a != [] {
      TextOrder(a[1..], if b == [] then [] else b[1..], if c == [] then [] else c[1..]);
      if b != [] { assert a == [a[0]] + a[1..] && b == [b[0]] + b[1..]; }
    }
  }

  lemma TextsApart(xs: seq<string>)
    ensures WeakOrder(TextLess) && Apart(xs, TextLess)
  {
    forall p: string, q: string, r: string
      ensures Weak(TextLess, p, q, r)
    {
      TextOrder(p, q, r);
      TextOrder(r, p, q);
    }
    forall p, q | p in xs && q in xs
      ensures !TextLess(p, q) && !TextLess(q, p) ==> p == q
    {
      TextOrder(p, q, p);
    }
  }

  /** Texts sort alike, in whatever order they come. */
  lemma TextsSortAlike(a: seq<string>, b: seq<string>)
    requires multiset(a) == multiset(b)
    ensures Sorted(a, TextLess) == Sorted(b, TextLess)
  {
    TextsApart(Sorted(a, TextLess));
    SortedHas(a, TextLess);
    SortedHas(b, TextLess);
    SortedAscends(a, TextLess);
    SortedAscends(b, TextLess);
    AscendingUnique(Sorted(a, TextLess), Sorted(b, TextLess), TextLess);
  }

  // ----------------------------------------------------------------- in place

  /** What swapping an item past the lesser ones after it leaves. */
  function Sunk<T>(s: seq<T>, j: nat, less: Order<T>): (r: seq<T>)
    ensures |r| == |s|
    decreases |s| - j
  {
    if j + 1 < |s| && less(s[j + 1], s[j]) then Sunk(s[j := s[j + 1]][j + 1 := s[j]], j + 1, less) else s
  }

  lemma {:induction false} SunkInserts<T>(done: seq<T>, x: T, rest: seq<T>, less: Order<T>)
    ensures Sunk(done + ([x] + rest), |done|, less) == done + Insert(x, rest, less)
    decreases |rest|
  {
    var s := done + ([x] + rest);
    if rest != [] && less(rest[0], x) {
      var more := done + [rest[0]];
      assert s[|done| := rest[0]][|done| + 1 := x] == more + ([x] + rest[1..]);
      SunkInserts(more, x, rest[1..], less);
      Assoc(done, [rest[0]], Insert(x, rest[1..], less));
    }
  }

  /** The items from i on sorted, those after it being so. */
  lemma SortStep<T>(s: seq<T>, was: seq<T>, i: nat, less: Order<T>)
    requires i < |was| && s == was[..i + 1] + Sorted(was[i + 1..], less)
    ensures Sunk(s, i, less) == was[..i] + Sorted(was[i..], less)
  {
    var rest := Sorted(was[i + 1..], less);
    assert was[..i + 1] + rest == was[..i] + ([was[i]] + rest);
    SunkInserts(was[..i], was[i], rest, less);
    assert was[i..][1..] == was[i + 1..];
  }

  method SortStable<T>(a: array<T>, less: Order<T>)
    modifies a
    ensures a[..] == Sorted(old(a[..]), less)
  {
    ghost var was := a[..];
    var i := a.Length;
    while i > 0
      invariant 0 <= i <= a.Length
      invariant a[..] == was[..i] + Sorted(was[i..], less)
    {
      i := i - 1;
      SortStep(a[..], was, i, less);
      Sink(a, i, less);
    }
    assert was[0..] == was && was[..0] == [];
  }

  method Sink<T>(a: array<T>, i: nat, less: Order<T>)
    requires i < a.Length
    modifies a
    ensures a[..] == Sunk(old(a[..]), i, less)
  {
    var j := i;
    while j + 1 < a.Length && less(a[j + 1], a[j])
      invariant i <= j < a.Length
      invariant Sunk(a[..], j, less) == Sunk(old(a[..]), i, less)
    {
      ghost var s := a[..];
      a[j], a[j + 1] := a[j + 1], a[j];
      assert a[..] == s[j := s[j + 1]][j + 1 := s[j]];
      j := j + 1;
    }
  }
}
