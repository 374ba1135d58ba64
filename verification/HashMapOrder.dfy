/**
 The order of java.util.HashMap (internal/avrojson/hashmap.go): the closed form the renderer uses, and
 the table Java fills, one key at a time, doubling when it is more than three quarters full. Their
 orders are the same, of maps whose keys repeat too. A chain that Java turns into a tree is left out.
 */
module HashMapOrder {
  import opened Wrappers
  import opened Numbers
  import opened Sequences
  import opened Sorting

  datatype Entry<V> = Entry(key: string, value: V)

  type Hash = string -> nat

  // ------------------------------------------------------------- Java's table

  /** A chained hash table: chains[b] holds the entries whose hash leaves b when divided by the capacity. */
  datatype Table<V> = Table(chains: seq<seq<Entry<V>>>, size: nat)

  predicate Has<V>(es: seq<Entry<V>>, key: string) {
    es != [] && (es[0].key == key || Has(es[1..], key))
  }

  /** A chain's new value for a key it has, or else the key at its end. */
  function PutChain<V>(es: seq<Entry<V>>, e: Entry<V>): seq<Entry<V>> {
    if es == [] then [e]
    else if es[0].key == e.key then [e] + es[1..]
    else [es[0]] + PutChain(es[1..], e)
  }

  function Bucket(key: string, h: Hash, capacity: nat): nat {
    if capacity == 0 then 0 else h(key) % capacity
  }

  /** The entries of a chain that belong to this bucket, in their order. */
  function Filter<V>(es: seq<Entry<V>>, h: Hash, capacity: nat, bucket: nat): seq<Entry<V>> {
    if es == [] then []
    else if Bucket(es[0].key, h, capacity) == bucket then [es[0]] + Filter(es[1..], h, capacity, bucket)
    else Filter(es[1..], h, capacity, bucket)
  }

  /** Twice the chains: each splits in two, in order. */
  function Split<V>(chains: seq<seq<Entry<V>>>, h: Hash): (r: seq<seq<Entry<V>>>)
    ensures |r| == 2 * |chains|
  {
    var c := |chains|;
    seq(2 * c, j requires 0 <= j < 2 * c => Filter(chains[if j < c then j else j - c], h, 2 * c, j))
  }

  function Put<V>(t: Table<V>, h: Hash, e: Entry<V>): (r: Table<V>)
    requires |t.chains| > 0
    ensures |r.chains| > 0
  {
    var b := Bucket(e.key, h, |t.chains|);
    var chains := t.chains[b := PutChain(t.chains[b], e)];
    if Has(t.chains[b], e.key) then Table(chains, t.size)
    else if t.size + 1 > |chains| * 3 / 4 then Table(Split(chains, h), t.size + 1)
    else Table(chains, t.size + 1)
  }

  function Fill<V>(t: Table<V>, h: Hash, es: seq<Entry<V>>): Table<V>
    requires |t.chains| > 0
    decreases |es|
  {
    if es == [] then t else Fill(Put(t, h, es[0]), h, es[1..])
  }

  function Empty<V>(): (t: Table<V>)
    ensures |t.chains| == 16
  {
    Table(seq(16, _ => []), 0)
  }

  function Concat<T>(chains: seq<seq<T>>): seq<T> {
    if chains == [] then [] else chains[0] + Concat(chains[1..])
  }

  /** The entries as the table iterates over them. */
  function Traverse<V>(t: Table<V>): seq<Entry<V>> {
    Concat(t.chains)
  }

  // ------------------------------------------------------------ closed form

  /** Entries put one after another: a key that is there already only changes its value. */
  function Dedupe<V>(out: seq<Entry<V>>, es: seq<Entry<V>>): seq<Entry<V>>
    decreases |es|
  {
    if es == [] then out else Dedupe(PutChain(out, es[0]), es[1..])
  }

  function CapacityFrom(capacity: nat, n: nat): (c: nat)
    requires capacity > 0
    ensures c >= capacity
    decreases 2 * n - capacity
  {
    if capacity * 3 / 4 < n then CapacityFrom(2 * capacity, n) else capacity
  }

  function Capacity(n: nat): (c: nat)
    ensures c >= 16
  {
    CapacityFrom(16, n)
  }

  function At(bucket: seq<nat>, i: nat): nat {
    if i < |bucket| then bucket[i] else 0
  }

  /** Whether an index's bucket is less than another's. */
  function ByBucket(bucket: seq<nat>): Order<nat> {
    (i: nat, j: nat) => At(bucket, i) < At(bucket, j)
  }

  /** The stable sort of indexes by their buckets. */
  function StableSort(idx: seq<nat>, bucket: seq<nat>): (r: seq<nat>)
    ensures |r| == |idx|
  {
    Sorted(idx, ByBucket(bucket))
  }

  function Range(from: nat, n: nat): (r: seq<nat>)
    ensures |r| == (if from < n then n - from else 0) && forall k | 0 <= k < |r| :: r[k] == from + k
    decreases n - from
  {
    if from >= n then [] else [from] + Range(from + 1, n)
  }

  function Keys<V>(es: seq<Entry<V>>): (r: seq<string>)
    ensures |r| == |es|
  {
    seq(|es|, i requires 0 <= i < |es| => es[i].key)
  }

  function Buckets(keys: seq<string>, h: Hash, capacity: nat): (r: seq<nat>)
    ensures |r| == |keys|
  {
    seq(|keys|, i requires 0 <= i < |keys| => Bucket(keys[i], h, capacity))
  }

  /** javaHashMapOrder: the indexes of distinct keys in the order Java iterates over them. */
  function Order(keys: seq<string>, h: Hash): seq<nat> {
    if |keys| < 2 then Range(0, |keys|)
    else StableSort(Range(0, |keys|), Buckets(keys, h, Capacity(|keys|)))
  }

  function Pick<V>(es: seq<Entry<V>>, idx: seq<nat>): seq<Entry<V>> {
    if idx == [] then []
    else (if idx[0] < |es| then [es[idx[0]]] else []) + Pick(es, idx[1..])
  }

  function Arranged<V>(es: seq<Entry<V>>, h: Hash): seq<Entry<V>> {
    Pick(es, Order(Keys(es), h))
  }

  /** orderedEntries, of an ordered map. */
  function OrderedEntries<V>(m: seq<Entry<V>>, h: Hash): seq<Entry<V>> {
    Arranged(Dedupe([], m), h)
  }

  /** A map: with its entries in order, keys perhaps repeated, or one that Go iterates over in any order. */
  datatype MapValue<V> = Ordered(entries: seq<Entry<V>>) | Unordered(values: map<string, V>)

  function EntriesAt<V>(m: map<string, V>, keys: seq<string>): seq<Entry<V>>
    requires forall k <- keys :: k in m
  {
    if keys == [] then []
    else
      assert keys[0] in keys && forall k <- keys[1..] :: k in keys;
      [Entry(keys[0], m[keys[0]])] + EntriesAt(m, keys[1..])
  }

  /** Some order of a set. */
  ghost function Listing(keys: set<string>): (r: seq<string>)
    ensures multiset(r) == multiset(keys)
  {
    if keys == {} then []
    else
      var k :| k in keys;
      assert keys == {k} + (keys - {k});
      [k] + Listing(keys - {k})
  }

  ghost function InOrder(keys: set<string>): (r: seq<string>)
    ensures multiset(r) == multiset(keys) && forall k <- r :: k in keys
  {
    var r := Sorted(Listing(keys), TextLess);
    SortedHas(Listing(keys), TextLess);
    assert forall k <- r :: k in multiset(r);
    r
  }

  /** orderedEntries: the keys of a map without an order are taken in the order of their bytes. */
  ghost function MapEntries<V>(m: MapValue<V>, h: Hash): seq<Entry<V>> {
    match m
    case Ordered(es) => OrderedEntries(es, h)
    case Unordered(values) => Arranged(EntriesAt(values, InOrder(values.Keys)), h)
  }

  /** The value of the last entry with a key. */
  function Last<V>(m: seq<Entry<V>>, key: string): Option<V> {
    if m == [] then None
    else if m[|m| - 1].key == key then Some(m[|m| - 1].value)
    else Last(m[..|m| - 1], key)
  }

  // ------------------------------------------------------------- the capacity

  /** The table has room for every key, and one half its size, unless it is the first, does not. */
  lemma {:induction false} CapacityFromFits(capacity: nat, n: nat)
    requires capacity >= 2 && capacity % 2 == 0
    ensures var c := CapacityFrom(capacity, n);
      c % 2 == 0 && n <= c * 3 / 4 && (c == capacity || c / 2 * 3 / 4 < n)
    decreases 2 * n - capacity
  {
    if capacity * 3 / 4 < n { CapacityFromFits(2 * capacity, n); }
  }

  lemma {:induction false} CapacityFromStep(capacity: nat, n: nat)
    requires capacity >= 16
    ensures var c := CapacityFrom(capacity, n);
      CapacityFrom(capacity, n + 1) == if n + 1 > c * 3 / 4 then 2 * c else c
    decreases 2 * n - capacity
  {
    if capacity * 3 / 4 < n { CapacityFromStep(2 * capacity, n); }
  }

  predicate PowerOfTwo(p: nat)
    decreases p
  {
    p == 1 || (p > 1 && p % 2 == 0 && PowerOfTwo(p / 2))
  }

  lemma {:induction false} CapacityFromPower(capacity: nat, n: nat)
    requires PowerOfTwo(capacity)
    ensures PowerOfTwo(CapacityFrom(capacity, n))
    decreases 2 * n - capacity
  {
    if capacity * 3 / 4 < n {
      assert 2 * capacity / 2 == capacity;
      CapacityFromPower(2 * capacity, n);
    }
  }

  /** The final capacity is a power of two, and the least one from 16 whose load threshold holds every key. */
  lemma CapacityLeast(n: nat)
    ensures PowerOfTwo(Capacity(n)) && n <= Capacity(n) * 3 / 4
    ensures Capacity(n) == 16 || Capacity(n) / 2 * 3 / 4 < n
  {
    CapacityFromFits(16, n);
    assert PowerOfTwo(2) && PowerOfTwo(4) && PowerOfTwo(8) && PowerOfTwo(16);
    CapacityFromPower(16, n);
  }

  // ------------------------------------------------ filling gives the closed form

  /** The table of these entries, of distinct keys, in order. */
  function Closed<V>(es: seq<Entry<V>>, h: Hash, capacity: nat): (t: Table<V>)
    ensures |t.chains| == capacity
  {
    Table(seq(capacity, b requires 0 <= b < capacity => Filter(es, h, capacity, b)), |es|)
  }

  lemma {:induction false} FilterHas<V>(es: seq<Entry<V>>, h: Hash, capacity: nat, key: string)
    ensures Has(Filter(es, h, capacity, Bucket(key, h, capacity)), key) == Has(es, key)
  {
    if es != [] {
      FilterHas(es[1..], h, capacity, key);
      var f := Filter(es[1..], h, capacity, Bucket(key, h, capacity));
      assert ([es[0]] + f)[1..] == f;
    }
  }

  lemma {:induction false} FilterPut<V>(es: seq<Entry<V>>, h: Hash, capacity: nat, e: Entry<V>, b: nat)
    ensures Filter(PutChain(es, e), h, capacity, b)
         == if Bucket(e.key, h, capacity) == b then PutChain(Filter(es, h, capacity, b), e)
            else Filter(es, h, capacity, b)
  {
    if es != [] {
      FilterPut(es[1..], h, capacity, e, b);
      var f := Filter(es[1..], h, capacity, b);
      assert ([es[0]] + f)[1..] == f;
      var p := PutChain(es, e);
      assert p[1..] == if es[0].key == e.key then es[1..] else PutChain(es[1..], e);
    } else {
      assert [e][1..] == [];
    }
  }

  lemma {:induction false} PutChainSize<V>(es: seq<Entry<V>>, e: Entry<V>)
    ensures |PutChain(es, e)| == if Has(es, e.key) then |es| else |es| + 1
  {
    if es != [] { PutChainSize(es[1..], e); }
  }

  lemma ModDouble(x: nat, c: nat, d: nat)
    requires c > 0 && d == 2 * c
    ensures x % d == x % c || x % d == x % c + c
  {
    var q, r := Divide(x, d);
    ModHalf(x, c, d, q, r);
  }

  lemma ModHalf(x: nat, c: nat, d: nat, q: nat, r: nat)
    requires r < d == 2 * c && x == d * q + r
    ensures r == x % c || r == x % c + c
  {
    assert d * q == c * (2 * q);
    if r < c {
      Quotient(x, c, 2 * q, r);
    } else {
      assert c * (2 * q + 1) == c * (2 * q) + c;
      Quotient(x, c, 2 * q + 1, r - c);
    }
  }

  /** Splitting a chain leaves each half as if it had been filled so. */
  lemma {:induction false} FilterTwice<V>(es: seq<Entry<V>>, h: Hash, c: nat, j: nat)
    requires 0 <= j < 2 * c
    ensures Filter(Filter(es, h, c, if j < c then j else j - c), h, 2 * c, j) == Filter(es, h, 2 * c, j)
  {
    if es != [] {
      FilterTwice(es[1..], h, c, j);
      ModDouble(h(es[0].key), c, 2 * c);
      var f := Filter(es[1..], h, c, if j < c then j else j - c);
      assert ([es[0]] + f)[1..] == f;
    }
  }

  lemma SplitClosed<V>(es: seq<Entry<V>>, h: Hash, c: nat)
    ensures Split(Closed(es, h, c).chains, h) == Closed(es, h, 2 * c).chains
  {
    forall j | 0 <= j < 2 * c
      ensures Split(Closed(es, h, c).chains, h)[j] == Filter(es, h, 2 * c, j)
    {
      FilterTwice(es, h, c, j);
    }
  }

  lemma ChainClosed<V>(es: seq<Entry<V>>, h: Hash, c: nat, e: Entry<V>)
    requires c > 0
    ensures var chains := Closed(es, h, c).chains;
      var b := Bucket(e.key, h, c);
      chains[b := PutChain(chains[b], e)] == Closed(PutChain(es, e), h, c).chains
  {
    forall j | 0 <= j < c
      ensures Filter(PutChain(es, e), h, c, j)
           == if Bucket(e.key, h, c) == j then PutChain(Filter(es, h, c, j), e) else Filter(es, h, c, j)
    {
      FilterPut(es, h, c, e, j);
    }
  }

  lemma PutClosed<V>(es: seq<Entry<V>>, h: Hash, e: Entry<V>)
    ensures Put(Closed(es, h, Capacity(|es|)), h, e) == Closed(PutChain(es, e), h, Capacity(|PutChain(es, e)|))
  {
    var c, n := Capacity(|es|), PutChain(es, e);
    FilterHas(es, h, c, e.key);
    PutChainSize(es, e);
    CapacityFromStep(16, |es|);
    ChainClosed(es, h, c, e);
    SplitClosed(n, h, c);
  }

  lemma {:induction false} FillClosed<V>(es: seq<Entry<V>>, h: Hash, more: seq<Entry<V>>)
    ensures var r := Dedupe(es, more);
      Fill(Closed(es, h, Capacity(|es|)), h, more) == Closed(r, h, Capacity(|r|))
    decreases |more|
  {
    if more != [] {
      PutClosed(es, h, more[0]);
      FillClosed(PutChain(es, more[0]), h, more[1..]);
    }
  }

  // ------------------------------------- the closed form's chains, in one sequence

  /** The entries of the buckets from lo up. */
  function From<V>(es: seq<Entry<V>>, h: Hash, lo: nat, capacity: nat): seq<Entry<V>>
    decreases capacity - lo
  {
    if lo >= capacity then [] else Filter(es, h, capacity, lo) + From(es, h, lo + 1, capacity)
  }

  lemma {:induction false} ConcatFrom<V>(es: seq<Entry<V>>, h: Hash, lo: nat, capacity: nat)
    requires lo <= capacity
    ensures Concat(Closed(es, h, capacity).chains[lo..]) == From(es, h, lo, capacity)
    decreases capacity - lo
  {
    if lo < capacity {
      var chains := Closed(es, h, capacity).chains;
      assert chains[lo..][1..] == chains[lo + 1..];
      ConcatFrom(es, h, lo + 1, capacity);
    }
  }

  /** The indexes, of these, whose bucket it is. */
  function Of(idx: seq<nat>, bucket: seq<nat>, b: nat): seq<nat> {
    if idx == [] then []
    else if At(bucket, idx[0]) == b then [idx[0]] + Of(idx[1..], bucket, b)
    else Of(idx[1..], bucket, b)
  }

  function OfFrom(idx: seq<nat>, bucket: seq<nat>, lo: nat, capacity: nat): seq<nat>
    decreases capacity - lo
  {
    if lo >= capacity then [] else Of(idx, bucket, lo) + OfFrom(idx, bucket, lo + 1, capacity)
  }

  lemma {:induction false} OfHead(idx: seq<nat>, bucket: seq<nat>, b: nat)
    ensures forall k | 0 <= k < |Of(idx, bucket, b)| :: At(bucket, Of(idx, bucket, b)[k]) == b
  {
    if idx != [] { OfHead(idx[1..], bucket, b); }
  }

  lemma {:induction false} OfFromHead(idx: seq<nat>, bucket: seq<nat>, lo: nat, capacity: nat)
    ensures var r := OfFrom(idx, bucket, lo, capacity); r == [] || At(bucket, r[0]) >= lo
    decreases capacity - lo
  {
    if lo < capacity {
      OfHead(idx, bucket, lo);
      OfFromHead(idx, bucket, lo + 1, capacity);
    }
  }

  lemma {:induction false} InsertAfter(i: nat, less: seq<nat>, more: seq<nat>, bucket: seq<nat>)
    requires forall k | 0 <= k < |less| :: At(bucket, less[k]) < At(bucket, i)
    ensures Insert(i, less + more, ByBucket(bucket)) == less + Insert(i, more, ByBucket(bucket))
  {
    if less == [] {
      assert less + more == more;
    } else {
      assert (less + more)[1..] == less[1..] + more;
      InsertAfter(i, less[1..], more, bucket);
    }
  }

  lemma {:induction false} OfFromSkips(i: nat, idx: seq<nat>, bucket: seq<nat>, lo: nat, capacity: nat)
    requires At(bucket, i) < lo
    ensures OfFrom([i] + idx, bucket, lo, capacity) == OfFrom(idx, bucket, lo, capacity)
    decreases capacity - lo
  {
    assert ([i] + idx)[1..] == idx;
    if lo < capacity { OfFromSkips(i, idx, bucket, lo + 1, capacity); }
  }

  lemma {:induction false} InsertOf(i: nat, idx: seq<nat>, bucket: seq<nat>, lo: nat, capacity: nat)
    requires lo <= At(bucket, i) < capacity
    ensures Insert(i, OfFrom(idx, bucket, lo, capacity), ByBucket(bucket)) == OfFrom([i] + idx, bucket, lo, capacity)
    decreases capacity - lo
  {
    assert ([i] + idx)[1..] == idx;
    OfFromHead(idx, bucket, lo, capacity);
    var these, rest := Of(idx, bucket, lo), OfFrom(idx, bucket, lo + 1, capacity);
    if At(bucket, i) == lo {
      OfFromSkips(i, idx, bucket, lo + 1, capacity);
      assert [i] + (these + rest) == ([i] + these) + rest;
    } else {
      OfHead(idx, bucket, lo);
      InsertAfter(i, these, rest, bucket);
      InsertOf(i, idx, bucket, lo + 1, capacity);
    }
  }

  /** The stable sort groups the indexes by bucket, each group in the order given. */
  lemma {:induction false} StableSortGroups(idx: seq<nat>, bucket: seq<nat>, capacity: nat)
    requires forall k | 0 <= k < |idx| :: At(bucket, idx[k]) < capacity
    ensures StableSort(idx, bucket) == OfFrom(idx, bucket, 0, capacity)
  {
    if idx == [] {
      NoneOf(bucket, 0, capacity);
    } else {
      StableSortGroups(idx[1..], bucket, capacity);
      InsertOf(idx[0], idx[1..], bucket, 0, capacity);
      assert [idx[0]] + idx[1..] == idx;
    }
  }

  lemma {:induction false} NoneOf(bucket: seq<nat>, lo: nat, capacity: nat)
    ensures OfFrom([], bucket, lo, capacity) == []
    decreases capacity - lo
  {
    if lo < capacity { NoneOf(bucket, lo + 1, capacity); }
  }

  lemma {:induction false} PickConcat<V>(es: seq<Entry<V>>, a: seq<nat>, b: seq<nat>)
    ensures Pick(es, a + b) == Pick(es, a) + Pick(es, b)
  {
    if a == [] {
      assert a + b == b;
    } else {
      assert (a + b)[1..] == a[1..] + b;
      PickConcat(es, a[1..], b);
    }
  }

  lemma {:induction false} PickOf<V>(es: seq<Entry<V>>, h: Hash, capacity: nat, b: nat, k: nat)
    requires k <= |es|
    ensures Pick(es, Of(Range(k, |es|), Buckets(Keys(es), h, capacity), b)) == Filter(es[k..], h, capacity, b)
    decreases |es| - k
  {
    if k < |es| {
      PickOf(es, h, capacity, b, k + 1);
      var r, bucket := Range(k, |es|), Buckets(Keys(es), h, capacity);
      assert r[1..] == Range(k + 1, |es|);
      assert es[k..][1..] == es[k + 1..];
      var o := Of(r[1..], bucket, b);
      assert ([k] + o)[1..] == o;
    }
  }

  lemma {:induction false} PickFrom<V>(es: seq<Entry<V>>, h: Hash, lo: nat, capacity: nat)
    ensures Pick(es, OfFrom(Range(0, |es|), Buckets(Keys(es), h, capacity), lo, capacity)) == From(es, h, lo, capacity)
    decreases capacity - lo
  {
    if lo < capacity {
      var r, bucket := Range(0, |es|), Buckets(Keys(es), h, capacity);
      PickConcat(es, Of(r, bucket, lo), OfFrom(r, bucket, lo + 1, capacity));
      PickOf(es, h, capacity, lo, 0);
      assert es[0..] == es;
      PickFrom(es, h, lo + 1, capacity);
    }
  }

  lemma OrderIsSort(keys: seq<string>, h: Hash)
    ensures Order(keys, h) == StableSort(Range(0, |keys|), Buckets(keys, h, Capacity(|keys|)))
  {
    var bucket := Buckets(keys, h, Capacity(|keys|));
    assert StableSort([], bucket) == [];
    assert Range(0, 1) == [0] && [0][1..] == [];
    assert StableSort([0], bucket) == Insert(0, StableSort([0][1..], bucket), ByBucket(bucket)) == [0];
  }

  /** The order lists each index of a key once. */
  lemma OrderPermutes(keys: seq<string>, h: Hash)
    ensures multiset(Order(keys, h)) == multiset(Range(0, |keys|))
    ensures |Order(keys, h)| == |keys| && forall k | 0 <= k < |keys| :: Order(keys, h)[k] < |keys|
  {
    OrderIsSort(keys, h);
    var r, o := Range(0, |keys|), Order(keys, h);
    SortedHas(r, ByBucket(Buckets(keys, h, Capacity(|keys|))));
    forall k | 0 <= k < |keys|
      ensures o[k] < |keys|
    {
      assert o[k] in multiset(r);
    }
  }

  lemma BucketsBelow(keys: seq<string>, h: Hash, c: nat)
    requires c > 0
    ensures forall k | 0 <= k < |keys| :: At(Buckets(keys, h, c), Range(0, |keys|)[k]) < c
  {
  }

  lemma PickOrder<V>(es: seq<Entry<V>>, h: Hash)
    ensures Pick(es, Order(Keys(es), h)) == From(es, h, 0, Capacity(|es|))
  {
    var c := Capacity(|es|);
    OrderIsSort(Keys(es), h);
    BucketsBelow(Keys(es), h, c);
    StableSortGroups(Range(0, |es|), Buckets(Keys(es), h, c), c);
    PickFrom(es, h, 0, c);
  }

  /** The closed form lists what the table of repeated puts iterates over, and its capacity is that table's. */
  lemma ClosedFormIsTable<V>(m: seq<Entry<V>>, h: Hash)
    ensures OrderedEntries(m, h) == Traverse(Fill(Empty(), h, m))
    ensures |Fill(Empty(), h, m).chains| == Capacity(|Dedupe([], m)|)
  {
    var es: seq<Entry<V>> := [];
    assert Empty<V>() == Closed(es, h, Capacity(|es|));
    FillClosed(es, h, m);
    var r := Dedupe(es, m);
    PickOrder(r, h);
    ConcatFrom(r, h, 0, Capacity(|r|));
    var chains := Closed(r, h, Capacity(|r|)).chains;
    assert chains[0..] == chains;
  }

  // ----------------------------------------------------------- repeated keys

  /** The value of the first entry with a key. */
  function Lookup<V>(es: seq<Entry<V>>, key: string): Option<V> {
    if es == [] then None
    else if es[0].key == key then Some(es[0].value)
    else Lookup(es[1..], key)
  }

  function Count<V>(es: seq<Entry<V>>, key: string): nat {
    if es == [] then 0 else (if es[0].key == key then 1 else 0) + Count(es[1..], key)
  }

  /** What a list says of a key: its first value, and how often it is there. */
  function Says<V>(es: seq<Entry<V>>, key: string): (Option<V>, nat) {
    (Lookup(es, key), Count(es, key))
  }

  lemma {:induction false} PutSays<V>(es: seq<Entry<V>>, e: Entry<V>, key: string)
    ensures Lookup(PutChain(es, e), key) == if key == e.key then Some(e.value) else Lookup(es, key)
    ensures Count(es, key) <= 1 ==> Count(PutChain(es, e), key) == if key == e.key then 1 else Count(es, key)
  {
    assert [e][1..] == [];
    if es != [] {
      PutSays(es[1..], e, key);
      var p := PutChain(es[1..], e);
      assert ([es[0]] + p)[1..] == p;
      assert ([e] + es[1..])[1..] == es[1..];
    }
  }

  lemma {:induction false} LastCons<V>(e: Entry<V>, m: seq<Entry<V>>, key: string)
    ensures Last([e] + m, key) == match Last(m, key)
      case Some(v) => Some(v)
      case None => if e.key == key then Some(e.value) else None
  {
    if m == [] {
      assert ([e] + m)[..0] == [];
    } else {
      assert ([e] + m)[..|m|] == [e] + m[..|m| - 1];
      LastCons(e, m[..|m| - 1], key);
    }
  }

  lemma {:induction false} DedupeSays<V>(out: seq<Entry<V>>, es: seq<Entry<V>>, key: string)
    requires Count(out, key) == if Lookup(out, key) == None then 0 else 1
    ensures Says(Dedupe(out, es), key) == match Last(es, key)
      case Some(v) => (Some(v), 1)
      case None => Says(out, key)
    decreases |es|
  {
    if es != [] {
      PutSays(out, es[0], key);
      DedupeSays(PutChain(out, es[0]), es[1..], key);
      LastCons(es[0], es[1..], key);
      assert [es[0]] + es[1..] == es;
    }
  }

  lemma {:induction false} SaysConcat<V>(a: seq<Entry<V>>, b: seq<Entry<V>>, key: string)
    ensures Lookup(a + b, key) == if Lookup(a, key) == None then Lookup(b, key) else Lookup(a, key)
    ensures Count(a + b, key) == Count(a, key) + Count(b, key)
  {
    if a == [] {
      assert a + b == b;
    } else {
      assert (a + b)[1..] == a[1..] + b;
      SaysConcat(a[1..], b, key);
    }
  }

  lemma {:induction false} FilterSays<V>(es: seq<Entry<V>>, h: Hash, capacity: nat, b: nat, key: string)
    ensures Says(Filter(es, h, capacity, b), key) == if Bucket(key, h, capacity) == b then Says(es, key) else (None, 0)
  {
    if es != [] {
      FilterSays(es[1..], h, capacity, b, key);
      var f := Filter(es[1..], h, capacity, b);
      assert ([es[0]] + f)[1..] == f;
    }
  }

  lemma {:induction false} FromSays<V>(es: seq<Entry<V>>, h: Hash, lo: nat, capacity: nat, key: string)
    ensures Says(From(es, h, lo, capacity), key)
         == if lo <= Bucket(key, h, capacity) < capacity then Says(es, key) else (None, 0)
    decreases capacity - lo
  {
    if lo < capacity {
      FilterSays(es, h, capacity, lo, key);
      FromSays(es, h, lo + 1, capacity, key);
      SaysConcat(Filter(es, h, capacity, lo), From(es, h, lo + 1, capacity), key);
    }
  }

  lemma ArrangedSays<V>(es: seq<Entry<V>>, h: Hash, key: string)
    ensures Says(Arranged(es, h), key) == Says(es, key)
  {
    PickOrder(es, h);
    FromSays(es, h, 0, Capacity(|es|), key);
  }

  /** Every key of the map is listed once, with the value Get gives it, and no other key is. */
  lemma OrderedEntriesAgree<V>(m: seq<Entry<V>>, h: Hash, key: string)
    ensures var r := OrderedEntries(m, h);
      Lookup(r, key) == Last(m, key) && Count(r, key) == if Last(m, key) == None then 0 else 1
  {
    DedupeSays([], m, key);
    ArrangedSays(Dedupe([], m), h, key);
  }

  lemma {:induction false} EntriesSay<V>(m: map<string, V>, keys: seq<string>, key: string)
    requires forall k <- keys :: k in m
    ensures Lookup(EntriesAt(m, keys), key) == if key in keys then Some(m[key]) else None
    ensures Count(EntriesAt(m, keys), key) == multiset(keys)[key]
  {
    if keys != [] {
      assert keys == [keys[0]] + keys[1..] && forall k <- keys[1..] :: k in keys;
      EntriesSay(m, keys[1..], key);
    }
  }

  /** Of a map without an order too, every key is listed once, with its value, and no other is. */
  lemma UnorderedAgree<V>(m: map<string, V>, h: Hash, key: string)
    ensures var r := MapEntries(Unordered(m), h);
      Lookup(r, key) == (if key in m then Some(m[key]) else None) && Count(r, key) == if key in m then 1 else 0
  {
    var keys := InOrder(m.Keys);
    EntriesSay(m, keys, key);
    assert key in keys <==> key in multiset(keys);
    ArrangedSays(EntriesAt(m, keys), h, key);
  }

  // ------------------------------------------------------------------ hashes

  const WORD: int := 0x1_0000_0000

  function Power31(n: nat): int {
    if n == 0 then 1 else 31 * Power31(n - 1)
  }

  /** The sum Java defines a hash by: each item times 31 to the number of items after it. */
  function Weighted(items: seq<int>): int {
    if items == [] then 0 else items[0] * Power31(|items| - 1) + Weighted(items[1..])
  }

  lemma {:induction false} WeightedSnoc(items: seq<int>, x: int)
    ensures Weighted(items + [x]) == 31 * Weighted(items) + x
  {
    if items == [] {
      assert [x][1..] == [];
    } else {
      assert (items + [x])[1..] == items[1..] + [x];
      WeightedSnoc(items[1..], x);
      Times31(items[0], Power31(|items| - 1));
    }
  }

  lemma Times31(a: int, b: int)
    ensures a * (31 * b) == 31 * (a * b)
  {
  }

  lemma WrapStep(a: int, x: int)
    ensures (31 * (a % WORD) + x) % WORD == (31 * a + x) % WORD
  {
    assert 31 * a + x == 31 * (a % WORD) + x + WORD * (31 * (a / WORD));
  }

  /** The UTF-16 code units of a text. */
  function Utf16(s: string): seq<int> {
    if s == [] then []
    else
      var c := s[0] as int;
      (if c < 0x10000 then [c] else [0xD800 + (c - 0x10000) / 0x400, 0xDC00 + (c - 0x10000) % 0x400]) + Utf16(s[1..])
  }

  /** The UTF-8 bytes of a text. */
  function Utf8(s: string): (r: seq<int>)
    ensures forall i | 0 <= i < |r| :: 0 <= r[i] < 256
  {
    if s == [] then []
    else
      var c := s[0] as int;
      (if c < 0x80 then [c]
       else if c < 0x800 then [0xC0 + c / 0x40, 0x80 + c % 0x40]
       else if c < 0x10000 then [0xE0 + c / 0x1000, 0x80 + c / 0x40 % 0x40, 0x80 + c % 0x40]
       else [0xF0 + c / 0x40000, 0x80 + c / 0x1000 % 0x40, 0x80 + c / 0x40 % 0x40, 0x80 + c % 0x40])
      + Utf8(s[1..])
  }

  /** Bytes, as Java reads them: signed. */
  function Signed(bytes: seq<int>): (r: seq<int>)
    ensures |r| == |bytes|
  {
    seq(|bytes|, i requires 0 <= i < |bytes| => if bytes[i] < 128 then bytes[i] else bytes[i] - 256)
  }

  /** String.hashCode, or the hash of an Avro Utf8, as an unsigned word. */
  function JavaHash(key: string, utf8: bool): (h: nat)
    ensures h < 0x1_0000_0000
  {
    if utf8 then (Power31(|Utf8(key)|) + Weighted(Signed(Utf8(key)))) % WORD
    else Weighted(Utf16(key)) % WORD
  }

  /** A hash as it is after the first i items, from one or from zero. */
  function Running(fromOne: bool, items: seq<int>, i: nat): (h: nat)
    requires i <= |items|
    ensures h < 0x1_0000_0000
  {
    ((if fromOne then Power31(i) else 0) + Weighted(items[..i])) % WORD
  }

  lemma RunningMore(fromOne: bool, items: seq<int>, i: nat)
    requires i < |items|
    ensures Running(fromOne, items, i + 1) == (31 * Running(fromOne, items, i) + items[i]) % WORD
  {
    var start := if fromOne then Power31(i) else 0;
    assert items[..i + 1] == items[..i] + [items[i]];
    WeightedSnoc(items[..i], items[i]);
    WrapStep(start + Weighted(items[..i]), items[i]);
  }

  lemma RunningAll(items: seq<int>)
    ensures Running(true, items, |items|) == (Power31(|items|) + Weighted(items)) % WORD
    ensures Running(false, items, |items|) == Weighted(items) % WORD
  {
    assert items[..|items|] == items;
  }

  method Utf8Hash(key: string) returns (h: nat)
    ensures h == JavaHash(key, true)
  {
    h := 1;
    var s := Utf8(key);
    ghost var items := Signed(s);
    for i := 0 to |s|
      invariant h == Running(true, items, i)
    {
      RunningMore(true, items, i);
      var b := if s[i] < 128 then s[i] else s[i] - 256;
      h := (31 * h + b) % WORD;
    }
    RunningAll(items);
  }

  method JavaStringHash(key: string) returns (h: nat)
    ensures h == JavaHash(key, false)
  {
    h := 0;
    var units := Utf16(key);
    for i := 0 to |units|
      invariant h == Running(false, units, i)
    {
      RunningMore(false, units, i);
      h := (31 * h + units[i]) % WORD;
    }
    RunningAll(units);
  }

  function And(x: nat, y: nat): nat
    decreases x
  {
    if x == 0 then 0 else (if x % 2 == 1 && y % 2 == 1 then 1 else 0) + 2 * And(x / 2, y / 2)
  }

  function Xor(x: nat, y: nat): nat
    decreases x + y
  {
    if x + y == 0 then 0 else (if x % 2 != y % 2 then 1 else 0) + 2 * Xor(x / 2, y / 2)
  }

  lemma {:induction false} AndZero(x: nat)
    ensures And(x, 0) == 0
  {
    if x > 0 { AndZero(x / 2); }
  }

  lemma HalfRemainder(x: nat, p: nat)
    requires p > 0
    ensures x % (2 * p) == x % 2 + 2 * (x / 2 % p)
  {
    var q, r := Divide(x / 2, p);
    assert x == 2 * p * q + (2 * r + x % 2);
    Quotient(x, 2 * p, q, 2 * r + x % 2);
  }

  /** Masking with a power of two less one is the remainder by that power. */
  lemma {:induction false} MaskIsRemainder(x: nat, p: nat)
    requires PowerOfTwo(p)
    ensures And(x, p - 1) == x % p
    decreases p
  {
    if p == 1 {
      AndZero(x);
    } else if x > 0 {
      var half := p / 2;
      assert (p - 1) % 2 == 1 && (p - 1) / 2 == half - 1;
      MaskIsRemainder(x / 2, half);
      HalfRemainder(x, half);
      assert p == 2 * half;
    } else {
      assert x % p == 0;
    }
  }

  /** A key's hash with its upper half folded into its lower, as the table uses it. */
  function Spread(key: string, utf8: bool): nat {
    Xor(JavaHash(key, utf8), JavaHash(key, utf8) / 0x10000)
  }

  function SpreadHash(utf8: bool): Hash {
    key => Spread(key, utf8)
  }

  // ---------------------------------------------------------------- methods

  /** The value of the last entry with the key. */
  method Get<V>(m: seq<Entry<V>>, key: string) returns (r: Option<V>)
    ensures r == Last(m, key)
  {
    var i := |m| - 1;
    assert m[..|m|] == m;
    while i >= 0
      invariant -1 <= i < |m|
      invariant Last(m, key) == Last(m[..i + 1], key)
    {
      if m[i].key == key { return Some(m[i].value); }
      assert m[..i + 1][..i] == m[..i];
      i := i - 1;
    }
    r := None;
  }

  /** The indexes of distinct keys in the order Java iterates over a table filled with them. */
  method JavaHashMapOrder(keys: seq<string>, utf8: bool) returns (idx: array<nat>)
    ensures fresh(idx) && idx[..] == Order(keys, SpreadHash(utf8))
  {
    idx := new nat[|keys|](i => i);
    assert idx[..] == Range(0, |keys|);
    if |keys| < 2 { return; }
    var capacity := 16;
    while capacity * 3 / 4 < |keys|
      invariant capacity > 0 && CapacityFrom(capacity, |keys|) == Capacity(|keys|)
      decreases 2 * |keys| - capacity
    {
      capacity := capacity * 2;
    }
    CapacityLeast(|keys|);
    var bucket := new nat[|keys|];
    var i := 0;
    ghost var want := Buckets(keys, SpreadHash(utf8), capacity);
    while i < |keys|
      invariant 0 <= i <= |keys|
      invariant bucket[..i] == want[..i]
      invariant idx[..] == Range(0, |keys|)
    {
      var h: nat;
      if utf8 { h := Utf8Hash(keys[i]); } else { h := JavaStringHash(keys[i]); }
      var spread := Xor(h, h / 0x10000);
      MaskIsRemainder(spread, capacity);
      bucket[i] := And(spread, capacity - 1);
      i := i + 1;
    }
    assert bucket[..] == want;
    SortStable(idx, ByBucket(bucket[..]));
  }

  /** The position of a key among entries, as a map of positions gives it. */
  function Position<V>(es: seq<Entry<V>>, key: string): (i: nat)
    ensures i <= |es| && (i < |es| ==> es[i].key == key)
  {
    if es == [] || es[0].key == key then 0 else 1 + Position(es[1..], key)
  }

  lemma {:induction false} PutAtPosition<V>(es: seq<Entry<V>>, e: Entry<V>)
    ensures var i := Position(es, e.key); PutChain(es, e) == if i < |es| then es[i := e] else es + [e]
  {
    if es != [] {
      var i := Position(es[1..], e.key);
      PutAtPosition(es[1..], e);
      if es[0].key == e.key {
        assert es[0 := e] == [e] + es[1..];
      } else if i < |es| - 1 {
        assert es[i + 1 := e] == [es[0]] + es[1..][i := e];
      } else {
        assert es + [e] == [es[0]] + (es[1..] + [e]);
      }
    }
  }

  /** The entries of an ordered map, each key with its last value. */
  method LastValues<V>(m: seq<Entry<V>>) returns (entries: seq<Entry<V>>)
    ensures entries == Dedupe([], m)
  {
    entries := [];
    var i := 0;
    while i < |m|
      invariant 0 <= i <= |m|
      invariant Dedupe(entries, m[i..]) == Dedupe([], m)
    {
      var p := Position(entries, m[i].key);
      assert m[i..][1..] == m[i + 1..];
      PutAtPosition(entries, m[i]);
      if p < |entries| {
        assert entries[p].(value := m[i].value) == m[i];
        entries := entries[p := entries[p].(value := m[i].value)];
      } else {
        entries := entries + [m[i]];
      }
      i := i + 1;
    }
  }

  /** The keys of a map, in whatever order it is iterated over. */
  method ListKeys<V>(m: map<string, V>) returns (keys: array<string>)
    ensures fresh(keys) && multiset(keys[..]) == multiset(m.Keys)
  {
    var listed: seq<string>, rest := [], m.Keys;
    while rest != {}
      invariant multiset(listed) + multiset(rest) == multiset(m.Keys)
      decreases |rest|
    {
      var k :| k in rest;
      assert multiset(rest) == multiset{k} + multiset(rest - {k});
      listed, rest := listed + [k], rest - {k};
    }
    keys := new string[|listed|](i requires 0 <= i < |listed| => listed[i]);
    assert keys[..] == listed;
  }

  lemma {:induction false} EntriesMore<V>(m: map<string, V>, keys: seq<string>, k: string)
    requires (forall x <- keys :: x in m) && k in m
    ensures EntriesAt(m, keys + [k]) == EntriesAt(m, keys) + [Entry(k, m[k])]
  {
    if keys == [] {
      assert keys + [k] == [k] && [k][1..] == [];
    } else {
      assert (keys + [k])[1..] == keys[1..] + [k] && forall x <- keys[1..] :: x in keys;
      EntriesMore(m, keys[1..], k);
    }
  }

  method SortedEntries<V>(m: map<string, V>) returns (entries: seq<Entry<V>>)
    ensures entries == EntriesAt(m, InOrder(m.Keys))
  {
    var keys := ListKeys(m);
    TextsSortAlike(keys[..], Listing(m.Keys));
    SortStable(keys, TextLess);
    entries := [];
    assert keys[..0] == [];
    for i := 0 to keys.Length
      invariant keys[..] == InOrder(m.Keys)
      invariant forall k <- keys[..i] :: k in m
      invariant entries == EntriesAt(m, keys[..i])
    {
      assert keys[i] in keys[..] && keys[..i + 1] == keys[..i] + [keys[i]];
      EntriesMore(m, keys[..i], keys[i]);
      entries := entries + [Entry(keys[i], m[keys[i]])];
    }
    assert keys[..keys.Length] == keys[..];
  }

  /** A map's entries in the order Java iterates over them. */
  method EntriesInOrder<V(0)>(m: MapValue<V>, utf8: bool) returns (out: seq<Entry<V>>)
    ensures out == MapEntries(m, SpreadHash(utf8))
  {
    var entries: seq<Entry<V>>;
    match m {
      case Ordered(es) => entries := LastValues(es);
      case Unordered(values) => entries := SortedEntries(values);
    }
    out := Arrange(entries, utf8);
  }

  lemma PickStep<V>(es: seq<Entry<V>>, idx: seq<nat>, i: nat, out: seq<Entry<V>>)
    requires i < |idx| && idx[i] < |es|
    ensures out + Pick(es, idx[i..]) == out + [es[idx[i]]] + Pick(es, idx[i + 1..])
  {
    assert idx[i..][1..] == idx[i + 1..];
    Assoc(out, [es[idx[i]]], Pick(es, idx[i + 1..]));
  }

  lemma PickEnds<V>(es: seq<Entry<V>>, idx: seq<nat>, out: seq<Entry<V>>)
    ensures idx[0..] == idx && out + Pick(es, idx[|idx|..]) == out
  {
    assert idx[|idx|..] == [];
  }

  method Arrange<V(0)>(entries: seq<Entry<V>>, utf8: bool) returns (out: seq<Entry<V>>)
    ensures out == Arranged(entries, SpreadHash(utf8))
  {
    ghost var order := Order(Keys(entries), SpreadHash(utf8));
    OrderPermutes(Keys(entries), SpreadHash(utf8));
    var idx := JavaHashMapOrder(Keys(entries), utf8);
    out := [];
    PickEnds(entries, order, out);
    for i := 0 to idx.Length
      invariant idx[..] == order && idx.Length == |order|
      invariant Pick(entries, order) == out + Pick(entries, order[i..])
    {
      assert idx[i] == order[i];
      PickStep(entries, order, i, out);
      out := out + [entries[idx[i]]];
    }
    PickEnds(entries, order, out);
  }
}
