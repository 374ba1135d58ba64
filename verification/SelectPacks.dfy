/**
 The packs of a project (internal/engine/engine.go): those it lists, in that order, and before each what it
 requires, found depth first. What has been loaded is told by name.
 */
module SelectPacks {
  import opened Wrappers
  import opened Graphs

  datatype Pack = Pack(name: string, requires_: seq<string>)

  /** A pack listed by the name it is published under, or by where it is. */
  datatype Entry = Published(name: string) | Other(key: string)

  datatype NamedPack = NamedPack(name: string, pack: Pack)

  type Compiled = map<string, Pack>

  /** The names met so far, and the packs in the order they load. */
  datatype State = State(loaded: set<string>, out: seq<NamedPack>)

  function Key(e: Entry): string {
    match e case Published(name) => name case Other(key) => key
  }

  function Listed(e: Entry, compiled: Compiled): NamedPack
    requires Key(e) in compiled
  {
    NamedPack(match e { case Published(name) => name case Other(key) => compiled[key].name }, compiled[Key(e)])
  }

  /** All the names there can be. */
  function Universe(entries: seq<Entry>, compiled: Compiled): set<string> {
    compiled.Keys + set e | e in entries && Key(e) in compiled :: Listed(e, compiled).name
  }

  lemma FewerLeft(universe: set<string>, a: set<string>, b: set<string>)
    requires a <= b
    ensures |universe - b| <= |universe - a|
    ensures forall x | x in universe && x !in a && x in b :: |universe - b| < |universe - a|
  {
    assert universe - b <= universe - a;
    Fewer(universe - b, universe - a);
    if universe - b < universe - a {
      var x :| x in universe - a && x !in universe - b;
      Fewer(universe - b, (universe - a) - {x});
    }
  }

  lemma {:induction false} Fewer(a: set<string>, b: set<string>)
    requires a <= b
    ensures |a| <= |b|
  {
    if a != {} {
      var x :| x in a;
      Fewer(a - {x}, b - {x});
    }
  }

  /** A pack and the packs it requires that are not loaded yet. There is none when one is not compiled in. */
  function Add(universe: set<string>, compiled: Compiled, s: State, p: NamedPack): (r: Option<State>)
    requires compiled.Keys <= universe && p.name in universe
    ensures r.Some? ==> s.loaded <= r.value.loaded
    decreases |universe - s.loaded|, 0
  {
    if p.name in s.loaded then Some(s)
    else
      FewerLeft(universe, s.loaded, s.loaded + {p.name});
      match AddAll(universe, compiled, State(s.loaded + {p.name}, s.out), p.pack.requires_)
      case None => None
      case Some(t) => Some(State(t.loaded, t.out + [p]))
  }

  function AddAll(universe: set<string>, compiled: Compiled, s: State, keys: seq<string>): (r: Option<State>)
    requires compiled.Keys <= universe
    ensures r.Some? ==> s.loaded <= r.value.loaded
    decreases |universe - s.loaded|, 1 + |keys|
  {
    if keys == [] then Some(s)
    else if keys[0] !in compiled then None
    else
      match Add(universe, compiled, s, NamedPack(keys[0], compiled[keys[0]]))
      case None => None
      case Some(t) =>
        FewerLeft(universe, s.loaded, t.loaded);
        AddAll(universe, compiled, t, keys[1..])
  }

  function AddEntries(universe: set<string>, compiled: Compiled, s: State, entries: seq<Entry>): Option<State>
    requires Universe(entries, compiled) <= universe
    decreases |entries|
  {
    if entries == [] then Some(s)
    else if Key(entries[0]) !in compiled then None
    else
      assert entries[0] in entries;
      match Add(universe, compiled, s, Listed(entries[0], compiled))
      case None => None
      case Some(t) => AddEntries(universe, compiled, t, entries[1..])
  }

  const CORE: NamedPack := NamedPack("core", Pack("core", []))

  function Select(entries: seq<Entry>, compiled: Compiled): Option<seq<NamedPack>> {
    match AddEntries(Universe(entries, compiled), compiled, State({"core"}, [CORE]), entries)
    case None => None
    case Some(s) => Some(s.out)
  }

  // --------------------------------------------------------- what is added

  function NamesFrom(out: seq<NamedPack>, k: nat): set<string> {
    set i | k <= i < |out| :: out[i].name
  }

  predicate DistinctFrom(out: seq<NamedPack>, k: nat) {
    forall i, j | k <= i < j < |out| :: out[i].name != out[j].name
  }

  /** A state with more packs, each of a name that is new, and no more names than theirs. */
  predicate Extends(s: State, r: State) {
    s.loaded <= r.loaded && s.out <= r.out
    && NamesFrom(r.out, |s.out|) == r.loaded - s.loaded && DistinctFrom(r.out, |s.out|)
  }

  lemma ExtendsThen(s: State, t: State, r: State)
    requires Extends(s, t) && Extends(t, r)
    ensures Extends(s, r)
  {
    assert forall i | 0 <= i < |t.out| :: t.out[i] == r.out[i];
    assert NamesFrom(r.out, |s.out|) == NamesFrom(t.out, |s.out|) + NamesFrom(r.out, |t.out|);
    forall i, j | |s.out| <= i < j < |r.out|
      ensures r.out[i].name != r.out[j].name
    {
      if i < |t.out| <= j {
        assert r.out[i].name in NamesFrom(t.out, |s.out|) && r.out[j].name in NamesFrom(r.out, |t.out|);
      }
    }
  }

  lemma ExtendsByOne(s: State, t: State, p: NamedPack)
    requires p.name !in s.loaded && Extends(State(s.loaded + {p.name}, s.out), t)
    ensures Extends(s, State(t.loaded, t.out + [p]))
  {
    var out := t.out + [p];
    assert NamesFrom(out, |s.out|) == NamesFrom(t.out, |s.out|) + {p.name} by {
      assert out[|t.out|] == p;
      assert forall i | 0 <= i < |t.out| :: out[i] == t.out[i];
    }
    forall i, j | |s.out| <= i < j < |out|
      ensures out[i].name != out[j].name
    {
      if j == |t.out| { assert out[i].name in NamesFrom(t.out, |s.out|); }
    }
  }

  lemma {:induction false} AddExtends(universe: set<string>, compiled: Compiled, s: State, p: NamedPack)
    requires compiled.Keys <= universe && p.name in universe
    ensures var r := Add(universe, compiled, s, p); r.Some? ==> Extends(s, r.value) && p.name in r.value.loaded
    decreases |universe - s.loaded|, 0
  {
    if p.name !in s.loaded {
      FewerLeft(universe, s.loaded, s.loaded + {p.name});
      var inner := State(s.loaded + {p.name}, s.out);
      AddAllExtends(universe, compiled, inner, p.pack.requires_);
      var t := AddAll(universe, compiled, inner, p.pack.requires_);
      if t.Some? { ExtendsByOne(s, t.value, p); }
    }
  }

  lemma {:induction false} AddAllExtends(universe: set<string>, compiled: Compiled, s: State, keys: seq<string>)
    requires compiled.Keys <= universe
    ensures var r := AddAll(universe, compiled, s, keys);
      r.Some? ==> Extends(s, r.value) && forall k <- keys :: k in compiled && k in r.value.loaded
    decreases |universe - s.loaded|, 1 + |keys|
  {
    if keys != [] && keys[0] in compiled {
      AddExtends(universe, compiled, s, NamedPack(keys[0], compiled[keys[0]]));
      var t := Add(universe, compiled, s, NamedPack(keys[0], compiled[keys[0]]));
      if t.Some? {
        FewerLeft(universe, s.loaded, t.value.loaded);
        AddAllExtends(universe, compiled, t.value, keys[1..]);
        var r := AddAll(universe, compiled, t.value, keys[1..]);
        if r.Some? { ExtendsThen(s, t.value, r.value); }
        assert keys == [keys[0]] + keys[1..];
      }
    }
  }

  /** What every pack requires is compiled in and loaded, from the kth pack on. */
  predicate RequiresLoaded(compiled: Compiled, s: State, k: nat) {
    forall i | k <= i < |s.out| :: forall q <- s.out[i].pack.requires_ :: q in compiled && q in s.loaded
  }

  lemma {:induction false} AddRequires(universe: set<string>, compiled: Compiled, s: State, p: NamedPack)
    requires compiled.Keys <= universe && p.name in universe
    ensures var r := Add(universe, compiled, s, p); r.Some? ==> RequiresLoaded(compiled, r.value, |s.out|)
    decreases |universe - s.loaded|, 0
  {
    if p.name !in s.loaded {
      FewerLeft(universe, s.loaded, s.loaded + {p.name});
      AddAllExtends(universe, compiled, State(s.loaded + {p.name}, s.out), p.pack.requires_);
      AddAllRequires(universe, compiled, State(s.loaded + {p.name}, s.out), p.pack.requires_);
    }
  }

  lemma {:induction false} AddAllRequires(universe: set<string>, compiled: Compiled, s: State, keys: seq<string>)
    requires compiled.Keys <= universe
    ensures var r := AddAll(universe, compiled, s, keys); r.Some? ==> RequiresLoaded(compiled, r.value, |s.out|)
    decreases |universe - s.loaded|, 1 + |keys|
  {
    if keys != [] && keys[0] in compiled {
      var p := NamedPack(keys[0], compiled[keys[0]]);
      var t := Add(universe, compiled, s, p);
      if t.Some? {
        AddRequires(universe, compiled, s, p);
        AddExtends(universe, compiled, s, p);
        FewerLeft(universe, s.loaded, t.value.loaded);
        AddAllRequires(universe, compiled, t.value, keys[1..]);
        AddAllExtends(universe, compiled, t.value, keys[1..]);
        var r := AddAll(universe, compiled, t.value, keys[1..]);
        if r.Some? { RequiresThen(compiled, s, t.value, r.value); }
      }
    }
  }

  lemma RequiresThen(compiled: Compiled, s: State, t: State, r: State)
    requires RequiresLoaded(compiled, t, |s.out|) && RequiresLoaded(compiled, r, |t.out|)
    requires |s.out| <= |t.out| && t.out <= r.out && t.loaded <= r.loaded
    ensures RequiresLoaded(compiled, r, |s.out|)
  {
    assert forall i | 0 <= i < |t.out| :: t.out[i] == r.out[i];
  }

  // ------------------------------------------------------------ the closure

  /** A set of packs with all that they require of those compiled in. */
  predicate Closed(packs: set<NamedPack>, compiled: Compiled) {
    forall p <- packs :: forall q <- p.pack.requires_ :: q in compiled ==> NamedPack(q, compiled[q]) in packs
  }

  /** And all that they require is compiled in. */
  predicate Complete(packs: set<NamedPack>, compiled: Compiled) {
    Closed(packs, compiled) && forall p <- packs :: forall q <- p.pack.requires_ :: q in compiled
  }

  predicate HasListed(packs: set<NamedPack>, entries: seq<Entry>, compiled: Compiled) {
    forall e <- entries :: Key(e) in compiled ==> Listed(e, compiled) in packs
  }

  predicate AllIn(out: seq<NamedPack>, k: nat, packs: set<NamedPack>) {
    forall i | k <= i < |out| :: out[i] in packs
  }

  /** From a closed set of packs only packs of it are added; and, if it is complete, adding never fails. */
  lemma {:induction false} AddStaysIn(universe: set<string>, compiled: Compiled, s: State,
                                      p: NamedPack, packs: set<NamedPack>)
    requires compiled.Keys <= universe && p.name in universe
    requires Closed(packs, compiled) && p in packs
    ensures var r := Add(universe, compiled, s, p);
      (r.Some? ==> AllIn(r.value.out, |s.out|, packs)) && (Complete(packs, compiled) ==> r.Some?)
    decreases |universe - s.loaded|, 0
  {
    if p.name !in s.loaded {
      FewerLeft(universe, s.loaded, s.loaded + {p.name});
      AddAllStaysIn(universe, compiled, State(s.loaded + {p.name}, s.out), p.pack.requires_, packs);
    }
  }

  lemma {:induction false} AddAllStaysIn(universe: set<string>, compiled: Compiled, s: State,
                                         keys: seq<string>, packs: set<NamedPack>)
    requires compiled.Keys <= universe && Closed(packs, compiled)
    requires forall k <- keys :: k in compiled ==> NamedPack(k, compiled[k]) in packs
    ensures var r := AddAll(universe, compiled, s, keys);
      (r.Some? ==> AllIn(r.value.out, |s.out|, packs))
      && (Complete(packs, compiled) && (forall k <- keys :: k in compiled) ==> r.Some?)
    decreases |universe - s.loaded|, 1 + |keys|
  {
    if keys != [] && keys[0] in compiled {
      var p := NamedPack(keys[0], compiled[keys[0]]);
      AddStaysIn(universe, compiled, s, p, packs);
      var t := Add(universe, compiled, s, p);
      if t.Some? {
        assert forall k <- keys[1..] :: k in keys;
        AddExtends(universe, compiled, s, p);
        FewerLeft(universe, s.loaded, t.value.loaded);
        AddAllStaysIn(universe, compiled, t.value, keys[1..], packs);
        AddAllExtends(universe, compiled, t.value, keys[1..]);
        var r := AddAll(universe, compiled, t.value, keys[1..]);
        if r.Some? { AllInThen(s, t.value, r.value, packs); }
      }
    }
  }

  lemma AllInThen(s: State, t: State, r: State, packs: set<NamedPack>)
    requires AllIn(t.out, |s.out|, packs) && AllIn(r.out, |t.out|, packs) && t.out <= r.out
    ensures AllIn(r.out, |s.out|, packs)
  {
    assert forall i | 0 <= i < |t.out| :: t.out[i] == r.out[i];
  }

  lemma {:induction false} AddEntriesAre(universe: set<string>, compiled: Compiled, s: State,
                                         entries: seq<Entry>, packs: set<NamedPack>)
    requires Universe(entries, compiled) <= universe
    ensures var r := AddEntries(universe, compiled, s, entries);
      r.Some? ==>
        Extends(s, r.value) && RequiresLoaded(compiled, r.value, |s.out|)
        && forall e <- entries :: Key(e) in compiled && Listed(e, compiled).name in r.value.loaded
    ensures Closed(packs, compiled) && HasListed(packs, entries, compiled) ==>
      var r := AddEntries(universe, compiled, s, entries);
      (r.Some? ==> AllIn(r.value.out, |s.out|, packs))
      && (Complete(packs, compiled) && (forall e <- entries :: Key(e) in compiled) ==> r.Some?)
    decreases |entries|
  {
    if entries != [] && Key(entries[0]) in compiled {
      assert entries == [entries[0]] + entries[1..];
      var p := Listed(entries[0], compiled);
      AddExtends(universe, compiled, s, p);
      AddRequires(universe, compiled, s, p);
      if Closed(packs, compiled) && HasListed(packs, entries, compiled) { AddStaysIn(universe, compiled, s, p, packs); }
      var t := Add(universe, compiled, s, p);
      if t.Some? {
        AddEntriesAre(universe, compiled, t.value, entries[1..], packs);
        var r := AddEntries(universe, compiled, t.value, entries[1..]);
        if r.Some? {
          ExtendsThen(s, t.value, r.value);
          RequiresThen(compiled, s, t.value, r.value);
          if Closed(packs, compiled) && HasListed(packs, entries, compiled) { AllInThen(s, t.value, r.value, packs); }
        }
      }
    }
  }

  /** The core pack, those listed and all that they require of those compiled in, and no two of one name. */
  predicate Unambiguous(packs: set<NamedPack>, entries: seq<Entry>, compiled: Compiled) {
    CORE in packs && Closed(packs, compiled) && HasListed(packs, entries, compiled)
    && forall p, q | p in packs && q in packs :: p.name == q.name ==> p == q
  }

  function Packs(out: seq<NamedPack>): set<NamedPack> {
    set p | p in out
  }

  /** The names of a selection are those loaded, each once, and core's is first. */
  lemma SelectedNames(entries: seq<Entry>, compiled: Compiled)
    ensures var u := Universe(entries, compiled);
      var r := AddEntries(u, compiled, State({"core"}, [CORE]), entries);
      r.Some? ==>
        NamesFrom(r.value.out, 0) == r.value.loaded && DistinctFrom(r.value.out, 0)
        && |r.value.out| > 0 && r.value.out[0] == CORE && RequiresLoaded(compiled, r.value, 0)
  {
    var u, s := Universe(entries, compiled), State({"core"}, [CORE]);
    AddEntriesAre(u, compiled, s, entries, {});
    var r := AddEntries(u, compiled, s, entries);
    if r.Some? {
      var out := r.value.out;
      assert out[0] == CORE;
      assert NamesFrom(out, 0) == {"core"} + NamesFrom(out, 1);
      forall i, j | 0 <= i < j < |out|
        ensures out[i].name != out[j].name
      {
        assert out[j].name in NamesFrom(out, 1);
      }
    }
  }

  /** No name is selected twice, core is first, and every pack is of any closed set that has those listed. */
  lemma SelectedOnce(entries: seq<Entry>, compiled: Compiled, packs: set<NamedPack>)
    requires Closed(packs, compiled) && HasListed(packs, entries, compiled)
    ensures var r := Select(entries, compiled);
      r.Some? ==> |r.value| > 0 && r.value[0] == CORE && DistinctFrom(r.value, 0) && AllIn(r.value, 1, packs)
  {
    SelectedNames(entries, compiled);
    AddEntriesAre(Universe(entries, compiled), compiled, State({"core"}, [CORE]), entries, packs);
  }

  /** A pack whose name is loaded is the one selected of that name. */
  lemma SelectedHas(out: seq<NamedPack>, p: NamedPack, packs: set<NamedPack>)
    requires forall x, y | x in packs && y in packs :: x.name == y.name ==> x == y
    requires p in packs && AllIn(out, 0, packs) && p.name in NamesFrom(out, 0)
    ensures p in Packs(out)
  {
    var i :| 0 <= i < |out| && out[i].name == p.name;
    assert out[i] in packs;
  }

  /** Where no two reached have one name, what is selected is complete and has all that is listed: the closure. */
  lemma SelectedComplete(entries: seq<Entry>, compiled: Compiled, packs: set<NamedPack>)
    requires Unambiguous(packs, entries, compiled)
    ensures var r := Select(entries, compiled);
      r.Some? ==>
        Complete(Packs(r.value), compiled) && HasListed(Packs(r.value), entries, compiled)
        && forall e <- entries :: Key(e) in compiled
  {
    var s := State({"core"}, [CORE]);
    SelectedNames(entries, compiled);
    AddEntriesAre(Universe(entries, compiled), compiled, s, entries, packs);
    var r := AddEntries(Universe(entries, compiled), compiled, s, entries);
    if r.Some? {
      var out := r.value.out;
      assert AllIn(out, 0, packs);
      forall i, q | 0 <= i < |out| && q in out[i].pack.requires_
        ensures q in compiled && NamedPack(q, compiled[q]) in Packs(out)
      {
        SelectedHas(out, NamedPack(q, compiled[q]), packs);
      }
      forall e | e in entries
        ensures Key(e) in compiled && Listed(e, compiled) in Packs(out)
      {
        SelectedHas(out, Listed(e, compiled), packs);
      }
    }
  }

  /** Of any project: when everything listed and all that this requires is compiled in, something is selected. */
  lemma CompleteSelects(entries: seq<Entry>, compiled: Compiled, all: set<NamedPack>)
    requires (forall e <- entries :: Key(e) in compiled) && Complete(all, compiled) && HasListed(all, entries, compiled)
    ensures Select(entries, compiled).Some?
  {
    AddEntriesAre(Universe(entries, compiled), compiled, State({"core"}, [CORE]), entries, all);
  }

  /** Where no two reached have one name, only then. */
  lemma SelectSucceeds(entries: seq<Entry>, compiled: Compiled, packs: set<NamedPack>)
    requires Unambiguous(packs, entries, compiled)
    ensures Select(entries, compiled).Some? <==>
      (forall e <- entries :: Key(e) in compiled)
      && exists all: set<NamedPack> :: Complete(all, compiled) && HasListed(all, entries, compiled)
  {
    var r := Select(entries, compiled);
    if r.Some? {
      SelectedComplete(entries, compiled, packs);
      assert Complete(Packs(r.value), compiled) && HasListed(Packs(r.value), entries, compiled);
    } else if exists all: set<NamedPack> :: Complete(all, compiled) && HasListed(all, entries, compiled) {
      var all: set<NamedPack> :| Complete(all, compiled) && HasListed(all, entries, compiled);
      if forall e <- entries :: Key(e) in compiled { CompleteSelects(entries, compiled, all); }
    }
  }

  /** What is selected has all that is listed and all that its packs require. */
  predicate SelectsClosure(entries: seq<Entry>, compiled: Compiled) {
    var r := Select(entries, compiled);
    r.Some? && Complete(Packs(r.value), compiled) && HasListed(Packs(r.value), entries, compiled)
  }

  /** Of any project: it does exactly when all reached are compiled in and no two of those have one name. */
  lemma ClosureUnlessAmbiguous(entries: seq<Entry>, compiled: Compiled)
    ensures SelectsClosure(entries, compiled) <==>
      (forall e <- entries :: Key(e) in compiled)
      && exists packs: set<NamedPack> :: Unambiguous(packs, entries, compiled) && Complete(packs, compiled)
  {
    var r := Select(entries, compiled);
    var u, s := Universe(entries, compiled), State({"core"}, [CORE]);
    if SelectsClosure(entries, compiled) {
      SelectedNames(entries, compiled);
      AddEntriesAre(u, compiled, s, entries, {});
      var out := r.value;
      assert out[0] in Packs(out);
      assert Unambiguous(Packs(out), entries, compiled) && Complete(Packs(out), compiled);
    }
    if (forall e <- entries :: Key(e) in compiled)
      && exists packs: set<NamedPack> :: Unambiguous(packs, entries, compiled) && Complete(packs, compiled)
    {
      var packs: set<NamedPack> :| Unambiguous(packs, entries, compiled) && Complete(packs, compiled);
      AddEntriesAre(u, compiled, s, entries, packs);
      SelectedComplete(entries, compiled, packs);
    }
  }

  /** Where a name is, the second of it is not selected, and what only it requires is never looked for. */
  lemma AmbiguousSkips()
    ensures var compiled := map["./http" := Pack("http", []), "http" := Pack("http", ["gone"])];
      Select([Other("./http"), Published("http")], compiled) == Some([CORE, NamedPack("http", Pack("http", []))])
  {
    var compiled := map["./http" := Pack("http", []), "http" := Pack("http", ["gone"])];
    var entries := [Other("./http"), Published("http")];
    var u, s, p := Universe(entries, compiled), State({"core"}, [CORE]), NamedPack("http", Pack("http", []));
    var t := State({"core"} + {"http"}, [CORE] + [p]);
    assert entries[0] in entries && entries[1] in entries;
    assert compiled["./http"] == p.pack && Listed(entries[0], compiled) == p;
    assert AddAll(u, compiled, State({"core"} + {"http"}, [CORE]), []) == Some(State({"core"} + {"http"}, [CORE]));
    assert Add(u, compiled, s, p) == Some(t);
    assert entries[1..] == [Published("http")] && entries[1..][1..] == [];
    assert Listed(entries[1], compiled).name in t.loaded;
    assert AddEntries(u, compiled, t, entries[1..][1..]) == Some(t);
    assert AddEntries(u, compiled, t, entries[1..]) == Some(t);
    assert AddEntries(u, compiled, s, entries) == Some(t);
    assert t.out == [CORE, p];
  }

  // -------------------------------------------------------------- the order

  function InProgress(s: State): set<string> {
    s.loaded - NamesFrom(s.out, 0)
  }

  lemma InProgressKept(s: State, r: State)
    requires Extends(s, r)
    ensures InProgress(r) == InProgress(s)
  {
    assert forall i | 0 <= i < |s.out| :: s.out[i] == r.out[i];
    assert NamesFrom(r.out, 0) == NamesFrom(s.out, 0) + NamesFrom(r.out, |s.out|);
  }

  /** Requiring goes down this rank. */
  predicate Descends(packs: set<NamedPack>, compiled: Compiled, rank: string -> nat) {
    forall p <- packs :: forall q <- p.pack.requires_ :: q in compiled ==> rank(q) < rank(p.name)
  }

  predicate Above(s: State, rank: string -> nat, n: nat) {
    forall x <- InProgress(s) :: rank(x) > n
  }

  /** From the kth on, every pack comes after all that it requires. */
  predicate Ordered(out: seq<NamedPack>, k: nat) {
    forall i | k <= i < |out| :: forall q <- out[i].pack.requires_ :: Earlier(out, i, q)
  }

  predicate Earlier(out: seq<NamedPack>, i: nat, name: string) {
    exists j | 0 <= j < i && j < |out| :: out[j].name == name
  }

  lemma OrderedThen(s: State, t: State, r: State)
    requires Ordered(t.out, |s.out|) && Ordered(r.out, |t.out|) && t.out <= r.out
    ensures Ordered(r.out, |s.out|)
  {
    forall i, q | |s.out| <= i < |r.out| && q in r.out[i].pack.requires_
      ensures Earlier(r.out, i, q)
    {
      if i < |t.out| {
        assert t.out[i] == r.out[i] && Earlier(t.out, i, q);
        var j :| 0 <= j < i && t.out[j].name == q;
        assert r.out[j].name == q;
      }
    }
  }

  lemma {:induction false} AddOrdered(universe: set<string>, compiled: Compiled, s: State,
                                      p: NamedPack, packs: set<NamedPack>, rank: string -> nat)
    requires compiled.Keys <= universe && p.name in universe
    requires Closed(packs, compiled) && p in packs && Descends(packs, compiled, rank) && Above(s, rank, rank(p.name))
    ensures var r := Add(universe, compiled, s, p); r.Some? ==> Ordered(r.value.out, |s.out|)
    decreases |universe - s.loaded|, 0
  {
    if p.name !in s.loaded {
      FewerLeft(universe, s.loaded, s.loaded + {p.name});
      var inner := State(s.loaded + {p.name}, s.out);
      var keys := p.pack.requires_;
      var t := AddAll(universe, compiled, inner, keys);
      if t.Some? {
        AddAllExtends(universe, compiled, inner, keys);
        assert InProgress(inner) <= InProgress(s) + {p.name};
        AddAllOrdered(universe, compiled, inner, keys, packs, rank);
        InProgressKept(inner, t.value);
        AddedLast(t.value, p, rank, |s.out|);
      }
    }
  }

  lemma AddedLast(t: State, p: NamedPack, rank: string -> nat, k: nat)
    requires Ordered(t.out, k) && k <= |t.out|
    requires forall q <- p.pack.requires_ :: q in t.loaded && rank(q) < rank(p.name)
    requires forall x <- InProgress(t) :: rank(x) >= rank(p.name)
    ensures Ordered(t.out + [p], k)
  {
    var out := t.out + [p];
    forall i, q | k <= i < |out| && q in out[i].pack.requires_
      ensures Earlier(out, i, q)
    {
      if i < |t.out| {
        assert Earlier(t.out, i, q);
        var j :| 0 <= j < i && t.out[j].name == q;
        assert out[j].name == q;
      } else {
        assert q in NamesFrom(t.out, 0);
        var j :| 0 <= j < |t.out| && t.out[j].name == q;
        assert out[j].name == q;
      }
    }
  }

  lemma {:induction false} AddAllOrdered(universe: set<string>, compiled: Compiled, s: State,
                                         keys: seq<string>, packs: set<NamedPack>, rank: string -> nat)
    requires compiled.Keys <= universe && Closed(packs, compiled) && Descends(packs, compiled, rank)
    requires forall k <- keys :: k in compiled ==> NamedPack(k, compiled[k]) in packs && Above(s, rank, rank(k))
    ensures var r := AddAll(universe, compiled, s, keys); r.Some? ==> Ordered(r.value.out, |s.out|)
    decreases |universe - s.loaded|, 1 + |keys|
  {
    if keys != [] && keys[0] in compiled {
      var p := NamedPack(keys[0], compiled[keys[0]]);
      AddOrdered(universe, compiled, s, p, packs, rank);
      AddExtends(universe, compiled, s, p);
      var t := Add(universe, compiled, s, p);
      if t.Some? {
        InProgressKept(s, t.value);
        assert forall k <- keys[1..] :: k in keys;
        FewerLeft(universe, s.loaded, t.value.loaded);
        AddAllOrdered(universe, compiled, t.value, keys[1..], packs, rank);
        AddAllExtends(universe, compiled, t.value, keys[1..]);
        var r := AddAll(universe, compiled, t.value, keys[1..]);
        if r.Some? { OrderedThen(s, t.value, r.value); }
      }
    }
  }

  lemma {:induction false} AddEntriesOrdered(universe: set<string>, compiled: Compiled, s: State,
                                             entries: seq<Entry>, packs: set<NamedPack>, rank: string -> nat)
    requires Universe(entries, compiled) <= universe
    requires Closed(packs, compiled) && Descends(packs, compiled, rank)
    requires HasListed(packs, entries, compiled) && InProgress(s) == {}
    ensures var r := AddEntries(universe, compiled, s, entries); r.Some? ==> Ordered(r.value.out, |s.out|)
    decreases |entries|
  {
    if entries != [] && Key(entries[0]) in compiled {
      assert entries == [entries[0]] + entries[1..];
      var p := Listed(entries[0], compiled);
      AddOrdered(universe, compiled, s, p, packs, rank);
      AddExtends(universe, compiled, s, p);
      var t := Add(universe, compiled, s, p);
      if t.Some? {
        InProgressKept(s, t.value);
        AddEntriesOrdered(universe, compiled, t.value, entries[1..], packs, rank);
        AddEntriesAre(universe, compiled, t.value, entries[1..], packs);
        var r := AddEntries(universe, compiled, t.value, entries[1..]);
        if r.Some? { OrderedThen(s, t.value, r.value); }
      }
    }
  }

  lemma RankedInOrder(entries: seq<Entry>, compiled: Compiled, packs: set<NamedPack>, rank: string -> nat)
    requires Closed(packs, compiled) && HasListed(packs, entries, compiled) && Descends(packs, compiled, rank)
    ensures var r := Select(entries, compiled); r.Some? ==> Ordered(r.value, 0)
  {
    var s := State({"core"}, [CORE]);
    assert NamesFrom(s.out, 0) == {"core"} by { assert s.out[0].name == "core"; }
    AddEntriesOrdered(Universe(entries, compiled), compiled, s, entries, packs, rank);
    SelectedNames(entries, compiled);
  }

  /** What packs of each name require, of what is compiled in. */
  function Requirements(packs: set<NamedPack>, compiled: Compiled): Graph<string> {
    var names := set p | p in packs :: p.name;
    map x | x in names :: set p, q | p in packs && p.name == x && q in p.pack.requires_ && q in compiled :: q
  }

  /** There is a rank that requiring goes down exactly when no pack requires itself, however far. */
  lemma RankWhenAcyclic(packs: set<NamedPack>, compiled: Compiled)
    requires Closed(packs, compiled)
    ensures (exists rank :: Descends(packs, compiled, rank)) <==> Acyclic(Requirements(packs, compiled))
  {
    var g := Requirements(packs, compiled);
    RankedWhenAcyclic(g);
    if Acyclic(g) {
      var ranks: map<string, nat> :| Ranks(g, ranks);
      DescendsBy(packs, compiled, ranks);
    }
    if rank :| Descends(packs, compiled, rank) {
      assert Ranks(g, map x | x in g :: rank(x));
    }
  }

  lemma DescendsBy(packs: set<NamedPack>, compiled: Compiled, ranks: map<string, nat>)
    requires Closed(packs, compiled) && Ranks(Requirements(packs, compiled), ranks)
    ensures Descends(packs, compiled, x => if x in ranks then ranks[x] else 0)
  {
    var g := Requirements(packs, compiled);
    forall p, q | p in packs && q in p.pack.requires_ && q in compiled
      ensures p.name in g && q in g && ranks[q] < ranks[p.name]
    {
      assert NamedPack(q, compiled[q]) in packs && NamedPack(q, compiled[q]).name == q;
      assert p.name in g && q in g[p.name];
    }
  }

  /** Of packs that require each other in no cycle, each comes after all it requires. */
  lemma SelectedInOrder(entries: seq<Entry>, compiled: Compiled, packs: set<NamedPack>)
    requires Closed(packs, compiled) && HasListed(packs, entries, compiled) && Acyclic(Requirements(packs, compiled))
    ensures var r := Select(entries, compiled); r.Some? ==> Ordered(r.value, 0)
  {
    RankWhenAcyclic(packs, compiled);
    var rank :| Descends(packs, compiled, rank);
    RankedInOrder(entries, compiled, packs, rank);
  }

  function Position(out: seq<NamedPack>, name: string): (k: nat)
    ensures k <= |out| && (k < |out| ==> out[k].name == name) && forall j | 0 <= j < k :: out[j].name != name
  {
    if out == [] || out[0].name == name then 0 else 1 + Position(out[1..], name)
  }

  lemma OrderDescends(out: seq<NamedPack>, compiled: Compiled)
    requires Ordered(out, 0) && DistinctFrom(out, 0)
    ensures Descends(Packs(out), compiled, x => Position(out, x))
  {
    forall p, q | p in Packs(out) && q in p.pack.requires_
      ensures Position(out, q) < Position(out, p.name)
    {
      var i :| 0 <= i < |out| && out[i] == p;
      assert Earlier(out, i, q);
      var j :| 0 <= j < i && out[j].name == q;
    }
  }

  /** So where no two reached have one name, what is selected is in such an order exactly when it has no cycle. */
  lemma OrderedWhenAcyclic(entries: seq<Entry>, compiled: Compiled, packs: set<NamedPack>)
    requires Unambiguous(packs, entries, compiled)
    ensures var r := Select(entries, compiled);
      r.Some? ==> (Ordered(r.value, 0) <==> Acyclic(Requirements(Packs(r.value), compiled)))
  {
    var r := Select(entries, compiled);
    if r.Some? {
      SelectedComplete(entries, compiled, packs);
      if Acyclic(Requirements(Packs(r.value), compiled)) {
        SelectedInOrder(entries, compiled, Packs(r.value));
      }
      if Ordered(r.value, 0) {
        SelectedNames(entries, compiled);
        OrderDescends(r.value, compiled);
        RankWhenAcyclic(Packs(r.value), compiled);
      }
    }
  }

  // ---------------------------------------------------------------- methods

  /** What selectPacks and its closure work on. */
  class Selection {
    const compiled: Compiled
    ghost const universe: set<string>
    var loaded: set<string>
    var out: seq<NamedPack>

    constructor (compiled: Compiled, ghost universe: set<string>)
      ensures this.compiled == compiled && this.universe == universe && Value() == State({"core"}, [CORE])
    {
      this.compiled, this.universe := compiled, universe;
      loaded, out := {"core"}, [CORE];
    }

    ghost function Value(): State
      reads this
    {
      State(loaded, out)
    }

    method AddPack(p: NamedPack) returns (ok: bool)
      requires compiled.Keys <= universe && p.name in universe
      modifies this
      ensures var r := Add(universe, compiled, old(Value()), p); ok == r.Some? && (ok ==> Value() == r.value)
      decreases |universe - loaded|, 0, 0
    {
      if p.name in loaded { return true; }
      FewerLeft(universe, loaded, loaded + {p.name});
      loaded := loaded + {p.name};
      ghost var inner := Value();
      var i := 0;
      var keys := p.pack.requires_;
      assert keys[0..] == keys;
      while i < |keys|
        invariant 0 <= i <= |keys| && inner.loaded <= loaded
        invariant AddAll(universe, compiled, Value(), keys[i..]) == AddAll(universe, compiled, inner, keys)
      {
        assert keys[i..][0] == keys[i] && keys[i..][1..] == keys[i + 1..];
        if keys[i] !in compiled { return false; }
        FewerLeft(universe, inner.loaded, loaded);
        ok := AddPack(NamedPack(keys[i], compiled[keys[i]]));
        if !ok { return; }
        i := i + 1;
      }
      out := out + [p];
      ok := true;
    }
  }

  method SelectPacks(entries: seq<Entry>, compiled: Compiled) returns (r: Option<seq<NamedPack>>)
    ensures r == Select(entries, compiled)
  {
    ghost var u := Universe(entries, compiled);
    var s := new Selection(compiled, u);
    assert entries[0..] == entries;
    for i := 0 to |entries|
      invariant s.compiled == compiled && s.universe == u && Universe(entries[i..], compiled) <= u
      invariant AddEntries(u, compiled, s.Value(), entries[i..])
             == AddEntries(u, compiled, State({"core"}, [CORE]), entries)
    {
      assert entries[i..][0] == entries[i] && entries[i..][1..] == entries[i + 1..];
      assert entries[i] in entries[i..] && forall e <- entries[i + 1..] :: e in entries[i..];
      if Key(entries[i]) !in compiled { return None; }
      var ok := s.AddPack(Listed(entries[i], compiled));
      if !ok { return None; }
    }
    r := Some(s.out);
  }
}
