/** The most frequent of several values, the earliest of those as frequent (internal/fixtures/adopter.go). */
module Modal {
  import opened Wrappers

  /** A value and how often it is there. */
  datatype Group<T> = Group(value: T, count: nat)

  function Count<T(==)>(values: seq<T>, v: T): (n: nat)
    ensures n <= |values|
  {
    if values == [] then 0
    else Count(values[..|values| - 1], v) + if values[|values| - 1] == v then 1 else 0
  }

  /** Where a value is first, or how many values there are. */
  function First<T(==)>(values: seq<T>, v: T): (i: nat)
    ensures i <= |values| && (i < |values| ==> values[i] == v)
  {
    if values == [] then 0
    else
      var rest := values[..|values| - 1];
      var i := First(rest, v);
      if i < |rest| || values[|values| - 1] == v then i else |values|
  }

  // --------------------------------------------------------------- grouping

  /** The groups with one more value. */
  function Add<T(==)>(groups: seq<Group<T>>, v: T): seq<Group<T>> {
    if groups == [] then [Group(v, 1)]
    else if groups[0].value == v then [Group(v, groups[0].count + 1)] + groups[1..]
    else [groups[0]] + Add(groups[1..], v)
  }

  function Grouped<T(==)>(values: seq<T>): seq<Group<T>> {
    if values == [] then [] else Add(Grouped(values[..|values| - 1]), values[|values| - 1])
  }

  /** The first group of the largest count. */
  function Top<T>(groups: seq<Group<T>>): Option<Group<T>> {
    if groups == [] then None
    else
      match Top(groups[1..])
      case None => Some(groups[0])
      case Some(t) => Some(if t.count > groups[0].count then t else groups[0])
  }

  function Usual<T(==)>(values: seq<T>): Option<T> {
    match Top(Grouped(values))
    case None => None
    case Some(g) => Some(g.value)
  }

  // ---------------------------------------------------------- what it is

  function CountOf<T(==)>(groups: seq<Group<T>>, v: T): nat {
    if groups == [] then 0 else if groups[0].value == v then groups[0].count else CountOf(groups[1..], v)
  }

  function Place<T(==)>(groups: seq<Group<T>>, v: T): (i: nat)
    ensures i <= |groups|
  {
    if groups == [] || groups[0].value == v then 0 else 1 + Place(groups[1..], v)
  }

  /** Each value has one group, that is not empty. */
  predicate Sound<T(==)>(groups: seq<Group<T>>) {
    groups == [] || (groups[0].count > 0 && CountOf(groups[1..], groups[0].value) == 0 && Sound(groups[1..]))
  }

  lemma {:induction false} AddOne<T>(groups: seq<Group<T>>, v: T, u: T)
    requires Sound(groups)
    ensures var now := Add(groups, v);
      Sound(now)
      && CountOf(now, u) == CountOf(groups, u) + (if u == v then 1 else 0)
      && |now| == |groups| + (if Place(groups, v) < |groups| then 0 else 1)
      && Place(now, u) == if Place(groups, u) < |groups| || u == v then Place(groups, u) else |now|
  {
    if groups != [] {
      AddOne(groups[1..], v, u);
      AddOne(groups[1..], v, groups[0].value);
      var now := Add(groups, v);
      assert now[1..] == if groups[0].value == v then groups[1..] else Add(groups[1..], v);
    }
  }

  /** The groups are of the values, each as often as it is there, in the order of the first of each. */
  lemma {:induction false} GroupedOrder<T>(values: seq<T>, u: T, w: T)
    ensures var groups := Grouped(values);
      Sound(groups)
      && CountOf(groups, u) == Count(values, u)
      && (Place(groups, u) < |groups| <==> First(values, u) < |values|)
      && (Place(groups, w) < |groups| <==> First(values, w) < |values|)
      && (Place(groups, u) < Place(groups, w) <==> First(values, u) < First(values, w))
  {
    if values != [] {
      var rest, v := values[..|values| - 1], values[|values| - 1];
      GroupedOrder(rest, u, w);
      GroupedOrder(rest, v, w);
      AddOne(Grouped(rest), v, u);
      AddOne(Grouped(rest), v, w);
    }
  }

  lemma {:induction false} TopIsMost<T>(groups: seq<Group<T>>, u: T)
    requires Sound(groups) && groups != []
    ensures var t := Top(groups);
      t.Some?
      && CountOf(groups, t.value.value) == t.value.count > 0
      && CountOf(groups, u) <= t.value.count
      && (CountOf(groups, u) == t.value.count ==> Place(groups, t.value.value) <= Place(groups, u))
  {
    if |groups| > 1 {
      TopIsMost(groups[1..], u);
      TopIsMost(groups[1..], groups[0].value);
    }
  }

  lemma {:induction false} CountThere<T>(values: seq<T>, v: T)
    ensures Count(values, v) > 0 <==> v in values
    ensures First(values, v) < |values| <==> v in values
  {
    if values != [] {
      CountThere(values[..|values| - 1], v);
      assert values == values[..|values| - 1] + [values[|values| - 1]];
    }
  }

  /** No value is more frequent, and none as frequent is earlier. */
  lemma UsualIsMost<T>(values: seq<T>, u: T)
    requires values != []
    ensures var v := Usual(values);
      v.Some? && v.value in values
      && Count(values, u) <= Count(values, v.value)
      && (Count(values, u) == Count(values, v.value) ==> First(values, v.value) <= First(values, u))
  {
    var groups, x := Grouped(values), values[0];
    GroupedOrder(values, x, u);
    CountThere(values, x);
    assert groups != [];
    TopIsMost(groups, u);
    var v := Usual(values).value;
    GroupedOrder(values, u, v);
    GroupedOrder(values, v, u);
    CountThere(values, v);
  }

  lemma UsualOfThree<T>(x: T, y: T)
    requires x != y
    ensures Usual([x, x, y]) == Some(x)
  {
    var s, t, u := [x, x, y], [x, x], [x];
    assert s[..2] == t && t[..1] == u && u[..0] == [];
    assert Count(u, x) == 1 && Count(u, y) == 0;
    assert Count(t, x) == 2 && Count(t, y) == 0;
    UsualIsMost(s, x);
  }

  lemma {:induction false} CountAll<T>(values: seq<T>, v: T, i: nat)
    requires i < |values| && Count(values, v) == |values|
    ensures values[i] == v
  {
    if i < |values| - 1 { CountAll(values[..|values| - 1], v, i); }
  }

  // ----------------------------------------------------------------- method

  lemma {:induction false} TopThen<T>(done: seq<Group<T>>, g: Group<T>)
    ensures Top(done + [g]) == match Top(done)
      case None => Some(g)
      case Some(t) => Some(if g.count > t.count then g else t)
  {
    if done != [] {
      assert (done + [g])[1..] == done[1..] + [g];
      TopThen(done[1..], g);
    }
  }

  /** The groups with one more value, in place. */
  function Updated<T>(groups: seq<Group<T>>, v: T, g: nat): seq<Group<T>> {
    if g < |groups| then groups[g := Group(v, groups[g].count + 1)] else groups + [Group(v, 1)]
  }

  lemma {:induction false} AddInPlace<T>(groups: seq<Group<T>>, v: T, g: nat)
    requires g <= |groups| && (g < |groups| ==> groups[g].value == v)
    requires forall h | 0 <= h < g :: groups[h].value != v
    ensures Add(groups, v) == Updated(groups, v, g)
  {
    if g > 0 {
      AddInPlace(groups[1..], v, g - 1);
      assert Updated(groups, v, g) == [groups[0]] + Updated(groups[1..], v, g - 1);
    }
  }

  lemma GroupedMore<T>(values: seq<T>, i: nat)
    requires i < |values|
    ensures Grouped(values[..i + 1]) == Add(Grouped(values[..i]), values[i])
  {
    assert values[..i + 1][..i] == values[..i];
  }

  method GroupValues<T(==)>(values: seq<T>) returns (groups: seq<Group<T>>)
    ensures groups == Grouped(values)
  {
    groups := [];
    for i := 0 to |values|
      invariant groups == Grouped(values[..i])
    {
      var v, g := values[i], 0;
      while g < |groups| && groups[g].value != v
        invariant 0 <= g <= |groups|
        invariant forall h | 0 <= h < g :: groups[h].value != v
      {
        g := g + 1;
      }
      AddInPlace(groups, v, g);
      GroupedMore(values, i);
      groups := if g < |groups| then groups[g := Group(v, groups[g].count + 1)] else groups + [Group(v, 1)];
    }
    assert values[..|values|] == values;
  }

  /** Counts the values in groups, and takes the first group of the largest count. */
  method MostFrequent<T(==)>(values: seq<T>) returns (best: Option<T>, count: int)
    ensures best == Usual(values)
    ensures count == match best { case None => -1 case Some(v) => Count(values, v) }
  {
    var groups := GroupValues(values);
    best, count := None, -1;
    for g := 0 to |groups|
      invariant match Top(groups[..g])
        case None => best == None && count == -1
        case Some(t) => best == Some(t.value) && count == t.count
    {
      assert groups[..g + 1] == groups[..g] + [groups[g]];
      TopThen(groups[..g], groups[g]);
      if groups[g].count > count { best, count := Some(groups[g].value), groups[g].count; }
    }
    assert groups[..|groups|] == groups;
    if groups != [] {
      var x := groups[0].value;
      GroupedOrder(values, x, x);
      TopIsMost(groups, x);
      GroupedOrder(values, best.value, x);
    }
  }
}
