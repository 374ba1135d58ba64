/** The scenarios one shard of a run has (internal/feature/shard.go): every nth of them by file and line. */
module Shard {
  import opened Wrappers
  import opened Numbers
  import opened Sorting

  /** A scenario; no two are one. */
  datatype Pickle = Pickle(uri: string, line: int, id: nat)

  // ------------------------------------------------------------- the order

  predicate Less(p: Pickle, q: Pickle) {
    TextLess(p.uri, q.uri) || (p.uri == q.uri && p.line < q.line)
  }

  predicate SameKey(p: Pickle, q: Pickle) {
    p.uri == q.uri && p.line == q.line
  }

  lemma LessOrder(p: Pickle, q: Pickle, r: Pickle)
    ensures SameKey(p, q) || Less(p, q) || Less(q, p)
    ensures !(Less(p, q) && Less(q, p)) && (Less(p, q) ==> !SameKey(p, q))
    ensures Less(p, q) && Less(q, r) ==> Less(p, r)
    ensures !Less(q, p) && !Less(r, q) ==> !Less(r, p)
  {
    TextOrder(p.uri, q.uri, r.uri);
    TextOrder(q.uri, r.uri, p.uri);
    TextOrder(r.uri, q.uri, p.uri);
    TextOrder(r.uri, p.uri, q.uri);
    TextOrder(q.uri, p.uri, r.uri);
  }

  /** The scenarios by file and line. */
  function Ordered(ps: seq<Pickle>): (r: seq<Pickle>)
    ensures |r| == |ps|
  {
    Sorted(ps, Less)
  }

  function Members(sorted: seq<Pickle>, i: nat, n: nat): set<Pickle>
    requires n > 0
  {
    set k | 0 <= k < |sorted| && k % n == i - 1 :: sorted[k]
  }

  function Filter(ps: seq<Pickle>, in_: set<Pickle>): seq<Pickle> {
    if ps == [] then [] else (if ps[0] in in_ then [ps[0]] else []) + Filter(ps[1..], in_)
  }

  /** Shard i of n. */
  function ShardOf(ps: seq<Pickle>, i: nat, n: nat): seq<Pickle>
    requires n > 0
  {
    Filter(ps, Members(Ordered(ps), i, n))
  }

  predicate Distinct(ps: seq<Pickle>) {
    forall j, k | 0 <= j < k < |ps| :: ps[j] != ps[k]
  }

  // -------------------------------------------------------------- sorting

  lemma SortedMember(ps: seq<Pickle>, p: Pickle)
    ensures p in Ordered(ps) <==> p in ps
  {
    SortedHas(ps, Less);
    assert p in multiset(Ordered(ps)) <==> p in multiset(ps);
  }

  predicate EachOnce(ps: seq<Pickle>) {
    forall p <- ps :: multiset(ps)[p] == 1
  }

  lemma {:induction false} DistinctOnce(ps: seq<Pickle>)
    requires Distinct(ps)
    ensures EachOnce(ps)
  {
    if ps != [] {
      var rest := ps[1..];
      assert ps == [ps[0]] + rest;
      assert forall k | 0 <= k < |rest| :: rest[k] == ps[k + 1];
      DistinctOnce(rest);
      assert ps[0] !in rest;
      forall p | p in ps
        ensures multiset(ps)[p] == 1
      {
        if p != ps[0] { assert p in rest; }
      }
    }
  }

  lemma {:induction false} OnceDistinct(ps: seq<Pickle>)
    requires EachOnce(ps)
    ensures Distinct(ps)
  {
    if ps != [] {
      var rest := ps[1..];
      assert ps == [ps[0]] + rest;
      assert ps[0] in ps && multiset(rest)[ps[0]] == 0;
      forall p | p in rest
        ensures multiset(rest)[p] == 1
      {
        assert p in ps;
      }
      OnceDistinct(rest);
      forall j, k | 0 <= j < k < |ps|
        ensures ps[j] != ps[k]
      {
        assert ps[k] == rest[k - 1] && ps[k] in multiset(rest);
        assert j > 0 ==> ps[j] == rest[j - 1];
      }
    }
  }

  lemma SortedDistinct(ps: seq<Pickle>)
    requires Distinct(ps)
    ensures Distinct(Ordered(ps))
  {
    SortedHas(ps, Less);
    DistinctOnce(ps);
    forall p | p in Ordered(ps)
      ensures multiset(Ordered(ps))[p] == 1
    {
      SortedMember(ps, p);
    }
    OnceDistinct(Ordered(ps));
  }

  lemma LessIsOrder()
    ensures WeakOrder(Less)
  {
    forall p: Pickle, q: Pickle, r: Pickle
      ensures Weak(Less, p, q, r)
    {
      LessOrder(p, q, r);
    }
  }

  predicate KeysDistinct(ps: seq<Pickle>) {
    forall p, q | p in ps && q in ps :: SameKey(p, q) ==> p == q
  }

  lemma KeysApart(ps: seq<Pickle>)
    requires KeysDistinct(ps)
    ensures Apart(Ordered(ps), Less)
  {
    forall p, q | p in Ordered(ps) && q in Ordered(ps)
      ensures !Less(p, q) && !Less(q, p) ==> p == q
    {
      SortedMember(ps, p);
      SortedMember(ps, q);
      LessOrder(p, q, p);
    }
  }

  // ---------------------------------------------------------- every scenario

  lemma {:induction false} FilterHas(ps: seq<Pickle>, in_: set<Pickle>, p: Pickle)
    ensures p in Filter(ps, in_) <==> p in ps && p in in_
  {
    if ps != [] {
      assert ps == [ps[0]] + ps[1..];
      FilterHas(ps[1..], in_, p);
    }
  }

  function IndexOf(ps: seq<Pickle>, p: Pickle): (k: nat)
    ensures k <= |ps| && (k < |ps| ==> ps[k] == p) && (p in ps ==> k < |ps|)
  {
    if ps == [] || ps[0] == p then 0 else 1 + IndexOf(ps[1..], p)
  }

  /** Each scenario is of one shard: that of its place in the order of files and lines. */
  lemma InOneShard(ps: seq<Pickle>, p: Pickle, i: nat, n: nat)
    requires Distinct(ps) && p in ps && 1 <= i <= n
    ensures p in ShardOf(ps, i, n) <==> IndexOf(Ordered(ps), p) % n == i - 1
  {
    var s := Ordered(ps);
    SortedMember(ps, p);
    SortedDistinct(ps);
    FilterHas(ps, Members(s, i, n), p);
    var k := IndexOf(s, p);
    assert s[k] == p;
    assert forall j | 0 <= j < |s| :: s[j] == p ==> j == k;
  }

  /** So shards 1 to n split them: each is in exactly one. */
  lemma ShardsPartition(ps: seq<Pickle>, p: Pickle, n: nat) returns (i: nat)
    requires Distinct(ps) && p in ps && n > 0
    ensures 1 <= i <= n && p in ShardOf(ps, i, n)
    ensures forall j: nat | 1 <= j <= n && p in ShardOf(ps, j, n) :: j == i
  {
    i := IndexOf(Ordered(ps), p) % n + 1;
    forall j: nat | 1 <= j <= n
      ensures p in ShardOf(ps, j, n) <==> i == j
    {
      InOneShard(ps, p, j, n);
    }
  }

  /** Some scenarios are those at places of a sequence that go up. */
  predicate At(at: seq<nat>, ps: seq<Pickle>, some: seq<Pickle>) {
    |at| == |some| && (forall k | 0 <= k < |at| :: at[k] < |ps| && ps[at[k]] == some[k])
    && forall j, k | 0 <= j < k < |at| :: at[j] < at[k]
  }

  lemma AtLater(at: seq<nat>, ps: seq<Pickle>, some: seq<Pickle>) returns (more: seq<nat>)
    requires ps != [] && At(at, ps[1..], some)
    ensures At(more, ps, some) && 0 !in more
  {
    more := seq(|at|, k requires 0 <= k < |at| => at[k] + 1);
  }

  lemma AtFirst(at: seq<nat>, ps: seq<Pickle>, some: seq<Pickle>)
    requires ps != [] && At(at, ps, some) && 0 !in at
    ensures At([0] + at, ps, [ps[0]] + some)
  {
    assert forall k | 0 <= k < |at| :: at[k] in at;
    assert forall k | 0 < k <= |at| :: ([0] + at)[k] == at[k - 1] && ([ps[0]] + some)[k] == some[k - 1];
  }

  /** And each keeps their order: the scenarios it has are some of those given, at places that go up. */
  lemma {:induction false} FilterKeepsOrder(ps: seq<Pickle>, in_: set<Pickle>) returns (at: seq<nat>)
    ensures At(at, ps, Filter(ps, in_))
  {
    if ps == [] {
      at := [];
    } else {
      var some := Filter(ps[1..], in_);
      var rest := FilterKeepsOrder(ps[1..], in_);
      at := AtLater(rest, ps, some);
      if ps[0] in in_ {
        AtFirst(at, ps, some);
        at := [0] + at;
      } else {
        assert [] + some == some;
      }
    }
  }

  /** Which scenarios a shard has does not depend on the order they were loaded in. */
  lemma LoadOrderFree(a: seq<Pickle>, b: seq<Pickle>, i: nat, n: nat, p: Pickle)
    requires n > 0 && multiset(a) == multiset(b) && KeysDistinct(a)
    ensures p in ShardOf(a, i, n) <==> p in ShardOf(b, i, n)
  {
    LessIsOrder();
    KeysApart(a);
    SortedHas(a, Less);
    SortedHas(b, Less);
    SortedAscends(a, Less);
    SortedAscends(b, Less);
    AscendingUnique(Ordered(a), Ordered(b), Less);
    FilterHas(a, Members(Ordered(a), i, n), p);
    FilterHas(b, Members(Ordered(b), i, n), p);
    assert p in multiset(a) <==> p in multiset(b);
  }

  // ----------------------------------------------------- when load order matters

  predicate SameShard(a: seq<Pickle>, b: seq<Pickle>, i: nat, n: nat)
    requires n > 0
  {
    forall p <- a + b :: p in ShardOf(a, i, n) <==> p in ShardOf(b, i, n)
  }

  /** Loaded in any order, the scenarios make the same shards. */
  ghost predicate OrderFree(a: seq<Pickle>) {
    forall b: seq<Pickle>, i: nat, n: nat | n > 0 && multiset(a) == multiset(b) :: SameShard(a, b, i, n)
  }

  lemma {:induction false} AscendingSorted(s: seq<Pickle>)
    requires Ascends(s, Less)
    ensures Ordered(s) == s
  {
    if s != [] {
      AscendingSorted(s[1..]);
      assert s == [s[0]] + s[1..];
    }
  }

  /** Changing places with another of the same file and line keeps the order. */
  lemma SwapAscends(s: seq<Pickle>, j: nat, k: nat)
    requires Ascends(s, Less) && j < |s| && k < |s| && SameKey(s[j], s[k])
    ensures Ascends(s[j := s[k]][k := s[j]], Less)
  {
    var b := s[j := s[k]][k := s[j]];
    assert forall x | 0 <= x < |s| :: SameKey(b[x], s[x]);
    forall x, y | 0 <= x < y < |b|
      ensures !Less(b[y], b[x])
    {
      assert !Less(s[y], s[x]);
    }
  }

  lemma SwapMakes(s: seq<Pickle>, j: nat, k: nat)
    requires j < |s| && k < |s| && Distinct(s)
    ensures var b := s[j := s[k]][k := s[j]]; multiset(b) == multiset(s) && Distinct(b)
  {
  }

  lemma PlaceOf(s: seq<Pickle>, p: Pickle, k: nat)
    requires Distinct(s) && k < |s| && s[k] == p
    ensures IndexOf(s, p) == k
  {
  }

  /** With one scenario a shard, it is in the shard of its place. */
  lemma InOwnShard(a: seq<Pickle>, p: Pickle, k: nat, i: nat)
    requires Distinct(a) && p in a && k == IndexOf(Ordered(a), p) && 1 <= i <= |a|
    ensures k < |a| && (p in ShardOf(a, i, |a|) <==> k == i - 1)
  {
    SortedMember(a, p);
    InOneShard(a, p, i, |a|);
    Quotient(k, |a|, 0, k);
  }

  lemma OtherPlace(a: seq<Pickle>, b: seq<Pickle>, p: Pickle, j: nat, k: nat)
    requires Distinct(a) && Distinct(b) && p in a && p in b && |a| == |b| && multiset(a) == multiset(b)
    requires j == IndexOf(Ordered(a), p) && k == IndexOf(Ordered(b), p) && j != k
    ensures !OrderFree(a)
  {
    SortedMember(a, p);
    InOwnShard(a, p, j, j + 1);
    InOwnShard(b, p, k, j + 1);
    assert p in a + b && !SameShard(a, b, j + 1, |a|);
  }

  /** Two at one file and line are in each other's shards when they are loaded in each other's places. */
  lemma SwapMoves(a: seq<Pickle>, p: Pickle, q: Pickle)
    requires Distinct(a) && p in a && q in a && SameKey(p, q) && p != q
    ensures !OrderFree(a)
  {
    var s := Ordered(a);
    SortedHas(a, Less);
    SortedDistinct(a);
    LessIsOrder();
    SortedAscends(a, Less);
    SortedMember(a, p);
    SortedMember(a, q);
    var j, k := IndexOf(s, p), IndexOf(s, q);
    var b := s[j := s[k]][k := s[j]];
    SwapAscends(s, j, k);
    SwapMakes(s, j, k);
    AscendingSorted(b);
    PlaceOf(b, p, k);
    assert b[k] in b;
    OtherPlace(a, b, p, j, k);
  }

  /** So the order of loading matters to no shard exactly when no two scenarios have one file and line. */
  lemma OrderFreeWhenDistinct(a: seq<Pickle>)
    requires Distinct(a)
    ensures OrderFree(a) <==> KeysDistinct(a)
  {
    if KeysDistinct(a) {
      forall b: seq<Pickle>, i: nat, n: nat | n > 0 && multiset(a) == multiset(b)
        ensures SameShard(a, b, i, n)
      {
        forall p | p in a + b
          ensures p in ShardOf(a, i, n) <==> p in ShardOf(b, i, n)
        {
          LoadOrderFree(a, b, i, n, p);
        }
      }
    } else {
      var p, q :| p in a && q in a && SameKey(p, q) && p != q;
      SwapMoves(a, p, q);
    }
  }

  // -------------------------------------------------------------- the sizes

  lemma {:induction false} InsertFilters(p: Pickle, s: seq<Pickle>, in_: set<Pickle>)
    ensures |Filter(Insert(p, s, Less), in_)| == |Filter(s, in_)| + if p in in_ then 1 else 0
  {
    if s != [] {
      InsertFilters(p, s[1..], in_);
      assert ([s[0]] + Insert(p, s[1..], Less))[1..] == Insert(p, s[1..], Less);
    }
    assert ([p] + s)[1..] == s;
  }

  lemma {:induction false} SortedFilters(ps: seq<Pickle>, in_: set<Pickle>)
    ensures |Filter(Ordered(ps), in_)| == |Filter(ps, in_)|
  {
    if ps != [] {
      SortedFilters(ps[1..], in_);
      InsertFilters(ps[0], Ordered(ps[1..]), in_);
    }
  }

  /** How many from the kth to the last are every nth. */
  function CountFrom(k: nat, size: nat, i: nat, n: nat): nat
    requires n > 0
    decreases size - k
  {
    if k >= size then 0 else (if k % n == i - 1 then 1 else 0) + CountFrom(k + 1, size, i, n)
  }

  lemma {:induction false} MembersCount(s: seq<Pickle>, k: nat, i: nat, n: nat)
    requires Distinct(s) && n > 0 && k <= |s|
    ensures |Filter(s[k..], Members(s, i, n))| == CountFrom(k, |s|, i, n)
    decreases |s| - k
  {
    if k < |s| {
      MembersCount(s, k + 1, i, n);
      assert s[k..][1..] == s[k + 1..];
      assert s[k] in Members(s, i, n) <==> k % n == i - 1;
    }
  }

  /** The share of a shard: the same number, and one more for the first of them when they do not split evenly. */
  function Share(size: nat, i: nat, n: nat): nat
    requires n > 0
  {
    size / n + if i - 1 < size % n then 1 else 0
  }

  lemma DivStep(k: nat, n: nat)
    requires n > 0
    ensures if k % n == n - 1 then (k + 1) % n == 0 && (k + 1) / n == k / n + 1
      else (k + 1) % n == k % n + 1 && (k + 1) / n == k / n
  {
    var q, r := k / n, k % n;
    assert k == q * n + r;
    if r == n - 1 {
      assert (q + 1) * n == q * n + n;
      Quotient(k + 1, n, q + 1, 0);
    } else {
      Quotient(k + 1, n, q, r + 1);
    }
  }

  lemma {:induction false} CountIsShare(k: nat, size: nat, i: nat, n: nat)
    requires 1 <= i <= n && k <= size
    ensures CountFrom(k, size, i, n) == Share(size, i, n) - Share(k, i, n)
    decreases size - k
  {
    if k < size {
      CountIsShare(k + 1, size, i, n);
      DivStep(k, n);
    }
  }

  /** How many scenarios a shard has. */
  lemma ShardSize(ps: seq<Pickle>, i: nat, n: nat)
    requires Distinct(ps) && 1 <= i <= n
    ensures |ShardOf(ps, i, n)| == Share(|ps|, i, n)
  {
    var s := Ordered(ps);
    SortedDistinct(ps);
    SortedFilters(ps, Members(s, i, n));
    MembersCount(s, 0, i, n);
    assert s[0..] == s;
    CountIsShare(0, |ps|, i, n);
    Quotient(0, n, 0, 0);
  }

  /** The shards' sizes differ by one at most. */
  lemma SizesEven(ps: seq<Pickle>, i: nat, j: nat, n: nat)
    requires Distinct(ps) && 1 <= i <= n && 1 <= j <= n
    ensures -1 <= |ShardOf(ps, i, n)| - |ShardOf(ps, j, n)| <= 1
  {
    ShardSize(ps, i, n);
    ShardSize(ps, j, n);
  }

  /** Of two at one file and line, the one loaded first is in the first shard. */
  lemma SameLineDepends(p: Pickle, q: Pickle)
    requires SameKey(p, q) && p != q
    ensures ShardOf([p, q], 1, 2) == [p] && ShardOf([q, p], 1, 2) == [q]
  {
    TwoAlike(p, q);
    TwoAlike(q, p);
  }

  lemma TwoAlike(p: Pickle, q: Pickle)
    requires SameKey(p, q) && p != q
    ensures ShardOf([p, q], 1, 2) == [p]
  {
    LessOrder(p, q, p);
    LessOrder(q, p, q);
    assert [p, q][1..] == [q] && [q][1..] == [];
    assert Ordered([q]) == [q];
    assert Ordered([p, q]) == [p, q];
    assert Members([p, q], 1, 2) == {p} by {
      assert [p, q][0] == p;
    }
    assert Filter([q], {p}) == [];
  }

  // ----------------------------------------------------------------- i of n

  const INT64: nat := 0x8000_0000_0000_0000

  predicate IsSpace(c: char) {
    var n := c as int;
    9 <= n <= 13 || n == 32 || n == 0x85 || n == 0xA0 || n == 0x1680 || 0x2000 <= n <= 0x200A
    || n == 0x2028 || n == 0x2029 || n == 0x202F || n == 0x205F || n == 0x3000
  }

  function TrimLeft(s: string): string {
    if s != [] && IsSpace(s[0]) then TrimLeft(s[1..]) else s
  }

  function TrimRight(s: string): string {
    if s != [] && IsSpace(s[|s| - 1]) then TrimRight(s[..|s| - 1]) else s
  }

  function Trim(s: string): string {
    TrimRight(TrimLeft(s))
  }

  /** Where a slash is first, or how long the text is. */
  function Slash(s: string): (k: nat)
    ensures k <= |s| && (k < |s| ==> s[k] == '/') && forall j | 0 <= j < k :: s[j] != '/'
  {
    if s == [] || s[0] == '/' then 0 else 1 + Slash(s[1..])
  }

  /** parseShard: shard i of n. */
  function Parse(spec: string): (r: Option<(nat, nat)>)
    ensures r.Some? ==> 1 <= r.value.0 <= r.value.1
  {
    var k := Slash(spec);
    if k == |spec| then None
    else
      var i, n := ParseInt(Trim(spec[..k]), INT64), ParseInt(Trim(spec[k + 1..]), INT64);
      if i.Some? && n.Some? && 1 <= i.value <= n.value then Some((i.value, n.value)) else None
  }

  predicate Spaces(s: string) {
    forall k | 0 <= k < |s| :: IsSpace(s[k])
  }

  lemma {:induction false} TrimsLeft(a: string, s: string)
    requires Spaces(a) && (s != [] ==> !IsSpace(s[0]))
    ensures TrimLeft(a + s) == s
  {
    if a == [] {
      assert a + s == s;
    } else {
      assert (a + s)[1..] == a[1..] + s;
      TrimsLeft(a[1..], s);
    }
  }

  lemma {:induction false} TrimsRight(s: string, b: string)
    requires Spaces(b) && (s != [] ==> !IsSpace(s[|s| - 1]))
    ensures TrimRight(s + b) == s
  {
    if b == [] {
      assert s + b == s;
    } else {
      assert (s + b)[..|s + b| - 1] == s + b[..|b| - 1];
      TrimsRight(s, b[..|b| - 1]);
    }
  }

  lemma TrimDecimal(a: string, n: nat, b: string)
    requires Spaces(a) && Spaces(b)
    ensures Trim(a + Decimal(n) + b) == Decimal(n)
  {
    var d := Decimal(n);
    assert IsDigit(d[0]) && IsDigit(d[|d| - 1]);
    assert a + d + b == a + (d + b);
    TrimsLeft(a, d + b);
    TrimsRight(d, b);
  }

  lemma SlashAt(a: string, b: string)
    requires forall k | 0 <= k < |a| :: a[k] != '/'
    ensures Slash(a + ['/'] + b) == |a|
  {
    var s := a + ['/'] + b;
    assert s[|a|] == '/';
    assert forall j | 0 <= j < |a| :: s[j] == a[j];
  }

  /** Every shard that can be asked for is read as it is written, whatever the spaces about its numbers. */
  lemma ParseReads(a: string, i: nat, b: string, c: string, n: nat, d: string)
    requires Spaces(a) && Spaces(b) && Spaces(c) && Spaces(d) && 1 <= i <= n < 0x8000_0000_0000_0000
    ensures Parse(a + Decimal(i) + b + ['/'] + (c + Decimal(n) + d)) == Some((i, n))
  {
    var l, r := a + Decimal(i) + b, c + Decimal(n) + d;
    SlashAt(l, r);
    var spec := l + ['/'] + r;
    assert spec[..|l|] == l && spec[|l| + 1..] == r;
    TrimDecimal(a, i, b);
    TrimDecimal(c, n, d);
    ParseDecimal(i, INT64);
    ParseDecimal(n, INT64);
  }

  // ---------------------------------------------------------------- methods

  /** Shard: the scenarios of the shard a spec names, all when it is empty, none of a spec that cannot be read. */
  method Shard(pickles: seq<Pickle>, spec: string) returns (r: Option<seq<Pickle>>)
    ensures spec == "" ==> r == Some(pickles)
    ensures spec != "" ==> match Parse(spec)
      case None => r == None
      case Some(s) => r == Some(ShardOf(pickles, s.0, s.1))
  {
    if spec == "" { return Some(pickles); }
    var parsed := Parse(spec);
    if parsed == None { return None; }
    var (i, n) := parsed.value;
    var in_ := Chosen(pickles, i, n);
    var out := Kept(pickles, in_);
    r := Some(out);
  }

  method Chosen(pickles: seq<Pickle>, i: nat, n: nat) returns (in_: set<Pickle>)
    requires n > 0
    ensures in_ == Members(Ordered(pickles), i, n)
  {
    var ordered := new Pickle[|pickles|](k requires 0 <= k < |pickles| => pickles[k]);
    assert ordered[..] == pickles;
    SortStable(ordered, Less);
    in_ := {};
    ghost var s := Ordered(pickles);
    for k := 0 to ordered.Length
      invariant ordered[..] == s && in_ == Members(s[..k], i, n)
    {
      MembersMore(s, k, i, n);
      if k % n == i - 1 { in_ := in_ + {ordered[k]}; }
    }
    assert s[..ordered.Length] == s;
  }

  method Kept(pickles: seq<Pickle>, in_: set<Pickle>) returns (out: seq<Pickle>)
    ensures out == Filter(pickles, in_)
  {
    out := [];
    assert pickles[0..] == pickles;
    for k := 0 to |pickles|
      invariant out + Filter(pickles[k..], in_) == Filter(pickles, in_)
    {
      assert pickles[k..][0] == pickles[k] && pickles[k..][1..] == pickles[k + 1..];
      ghost var rest := Filter(pickles[k + 1..], in_);
      if pickles[k] in in_ {
        assert out + ([pickles[k]] + rest) == (out + [pickles[k]]) + rest;
        out := out + [pickles[k]];
      } else {
        assert [] + rest == rest;
      }
    }
    assert Filter(pickles[|pickles|..], in_) == [];
  }

  lemma MembersMore(s: seq<Pickle>, k: nat, i: nat, n: nat)
    requires k < |s| && n > 0
    ensures Members(s[..k + 1], i, n) == Members(s[..k], i, n) + if k % n == i - 1 then {s[k]} else {}
  {
    assert forall j | 0 <= j < k :: s[..k + 1][j] == s[j] == s[..k][j];
    assert s[..k + 1][k] == s[k];
  }
}
