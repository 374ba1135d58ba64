/**
 Avro's binary encoding (the "Binary Encoding" section of the Avro 1.12 specification) and the
 reader of internal/avrojson/binary.go. Schemas may be recursive: a Ref names one of the named
 types. What the encoding allows a writer to choose, how arrays and maps are split into blocks
 and whether a block says its size in bytes, is part of a Datum.
 */
module AvroBinary {
  import opened Wrappers
  import opened Sequences
  import opened Graphs

  type Byte = x: int | 0 <= x < 256
  type Bytes = seq<Byte>

  const TWO64 := 0x1_0000_0000_0000_0000
  const MAX64 := 0x7FFF_FFFF_FFFF_FFFF
  const MIN64 := -0x8000_0000_0000_0000
  const MAX32 := 0x7FFF_FFFF
  const MIN32 := -0x8000_0000
  const TIME_MICROS: Bytes := [116, 105, 109, 101, 45, 109, 105, 99, 114, 111, 115]  // "time-micros"

  datatype Field = Field(name: Bytes, typ: Schema)

  datatype Schema =
    | Null
    | Boolean
    | Int(logical: Bytes)
    | Long(logical: Bytes)
    | Float
    | Double
    | Blob(logical: Bytes)
    | Text(logical: Bytes)
    | Fixed(name: Bytes, size: nat)
    | Enum(name: Bytes, symbols: seq<Bytes>)
    | Array(items: Schema)
    | Map(values: Schema)
    | Record(name: Bytes, fields: seq<Field>)
    | Union(types: seq<Schema>)
    | Ref(name: Bytes)

  type Names = map<Bytes, Schema>

  // The Go value of a datum. A union's branch is a one-entry record, and an enum's symbol a string.
  datatype Value =
    | VNil
    | VBool(b: bool)
    | VInt(n: int)
    | VLong(n: int)
    | VDuration(nanos: int)
    | VFloat(bits: Bytes)
    | VDouble(bits: Bytes)
    | VBlob(bytes: Bytes)
    | VText(bytes: Bytes)
    | VFixed(bytes: Bytes)
    | VList(items: seq<Value>)
    | VMap(entries: seq<Entry>)
    | VRecord(fields: map<Bytes, Value>)
  datatype Entry = Entry(key: Bytes, value: Value)

  datatype Result<+T> = Ok(value: T, rest: Bytes) | Fail

  // ---------------------------------------------------------------- schemas

  /** Ranks that show that every schema cycle goes through a union, an array or a map. */
  datatype Guard = Guard(rank: map<Bytes, nat>, top: nat)

  /** Each name s reaches outside unions, arrays and maps has a rank below k. */
  ghost predicate Guarded(names: Names, g: Guard, s: Schema, k: nat)
    decreases s
  {
    match s
    case Ref(n) => n in names && n in g.rank && g.rank[n] < k
    case Record(_, fields) => forall f <- fields :: Guarded(names, g, f.typ, k)
    case Array(items) => Guarded(names, g, items, g.top)
    case Map(values) => Guarded(names, g, values, g.top)
    case Union(types) => forall t <- types :: Guarded(names, g, t, g.top)
    case _ => true
  }

  ghost predicate Resolved(names: Names, g: Guard) {
    forall n <- names ::
      && n in g.rank && g.rank[n] < g.top
      && !names[n].Ref?
      && Guarded(names, g, names[n], g.rank[n])
  }

  /** The names a schema reaches outside unions, arrays and maps. */
  function Bare(s: Schema): set<Bytes> {
    match s
    case Ref(n) => {n}
    case Record(_, fields) => set f, n | f in fields && n in Bare(f.typ) :: n
    case _ => {}
  }

  /** Every name in a schema is one of these. */
  predicate Defined(names: Names, s: Schema)
    decreases s
  {
    match s
    case Ref(n) => n in names
    case Record(_, fields) => forall f <- fields :: Defined(names, f.typ)
    case Array(items) => Defined(names, items)
    case Map(values) => Defined(names, values)
    case Union(types) => forall t <- types :: Defined(names, t)
    case _ => true
  }

  function References(names: Names): Graph<Bytes> {
    map n | n in names :: Bare(names[n])
  }

  lemma {:induction false} GuardedWhen(names: Names, g: Guard, s: Schema, k: nat)
    requires forall n <- names :: n in g.rank && g.rank[n] < g.top
    ensures Guarded(names, g, s, k) <==> Defined(names, s) && forall n <- Bare(s) :: n in names ==> g.rank[n] < k
    decreases s
  {
    match s
    case Record(_, fields) =>
      forall f | f in fields
        ensures Guarded(names, g, f.typ, k)
           <==> Defined(names, f.typ) && forall n <- Bare(f.typ) :: n in names ==> g.rank[n] < k
      {
        GuardedWhen(names, g, f.typ, k);
      }
      assert forall f <- fields :: forall n <- Bare(f.typ) :: n in Bare(s);
    case Array(items) => GuardedWhen(names, g, items, g.top);
    case Map(values) => GuardedWhen(names, g, values, g.top);
    case Union(types) =>
      forall t | t in types
        ensures Guarded(names, g, t, g.top) <==> Defined(names, t)
      {
        GuardedWhen(names, g, t, g.top);
      }
    case _ =>
  }

  /** No name stands for another, each is defined, and none reaches itself outside unions, arrays and maps. */
  ghost predicate WellFounded(names: Names) {
    (forall n <- names :: !names[n].Ref? && Defined(names, names[n])) && Acyclic(References(names))
  }

  /** There are ranks a reader can go by exactly of schemas whose cycles go through a union, an array or a map. */
  lemma RanksWhenWellFounded(names: Names, s: Schema)
    ensures (exists g :: Resolved(names, g) && Guarded(names, g, s, g.top)) <==> WellFounded(names) && Defined(names, s)
  {
    RankedWhenAcyclic(References(names));
    if WellFounded(names) && Defined(names, s) {
      var rank: map<Bytes, nat> :| Ranks(References(names), rank);
      var top := Bounded(rank);
      RanksGuard(names, Guard(rank, top), s);
    }
    if g :| Resolved(names, g) && Guarded(names, g, s, g.top) {
      GuardRanks(names, g, s);
    }
  }

  lemma RanksGuard(names: Names, g: Guard, s: Schema)
    requires WellFounded(names) && Defined(names, s) && Ranks(References(names), g.rank)
    requires forall n <- g.rank :: g.rank[n] < g.top
    ensures Resolved(names, g) && Guarded(names, g, s, g.top)
  {
    GuardedWhen(names, g, s, g.top);
    forall n | n in names
      ensures n in g.rank && Guarded(names, g, names[n], g.rank[n])
    {
      assert n in References(names);
      GuardedWhen(names, g, names[n], g.rank[n]);
    }
  }

  lemma GuardRanks(names: Names, g: Guard, s: Schema)
    requires Resolved(names, g) && Guarded(names, g, s, g.top)
    ensures Ranks(References(names), g.rank) && Defined(names, s)
    ensures forall n <- names :: !names[n].Ref? && Defined(names, names[n])
  {
    GuardedWhen(names, g, s, g.top);
    forall n | n in names
      ensures Defined(names, names[n]) && forall m <- Bare(names[n]) :: m in names ==> g.rank[m] < g.rank[n]
    {
      GuardedWhen(names, g, names[n], g.rank[n]);
    }
  }

  predicate Known(names: Names, s: Schema) {
    s.Ref? ==> s.name in names
  }

  function Deref(names: Names, s: Schema): Schema
    requires Known(names, s)
  {
    if s.Ref? then names[s.name] else s
  }

  function Dotted(base: Bytes, logical: Bytes): Bytes {
    if logical == [] then base else base + [46] + logical
  }

  /** A union branch's key: a named type's name, or the type's with its logical type. */
  function BranchKey(s: Schema): Bytes {
    match s
    case Null => [110, 117, 108, 108]
    case Boolean => [98, 111, 111, 108, 101, 97, 110]
    case Int(l) => Dotted([105, 110, 116], l)
    case Long(l) => Dotted([108, 111, 110, 103], l)
    case Float => [102, 108, 111, 97, 116]
    case Double => [100, 111, 117, 98, 108, 101]
    case Blob(l) => Dotted([98, 121, 116, 101, 115], l)
    case Text(l) => Dotted([115, 116, 114, 105, 110, 103], l)
    case Fixed(n, _) => n
    case Enum(n, _) => n
    case Array(_) => [97, 114, 114, 97, 121]
    case Map(_) => [109, 97, 112]
    case Record(n, _) => n
    case Union(_) => [117, 110, 105, 111, 110]
    case Ref(n) => n
  }

  function Wrap(branch: Schema, v: Value): Value {
    if branch.Null? then VNil else VRecord(map[BranchKey(branch) := v])
  }

  /** time-micros is read as a duration, unless it would overflow one. */
  function LongValue(logical: Bytes, n: int): Value {
    if logical == TIME_MICROS && -9223372036854775 <= n <= 9223372036854775
    then VDuration(n * 1000) else VLong(n)
  }

  // --------------------------------------------------------------- decoding

  function Pow128(i: nat): (p: nat)
    ensures p > 0
  {
    if i == 0 then 1 else 128 * Pow128(i - 1)
  }

  function Unzigzag(u: nat): int {
    if u % 2 == 0 then u / 2 else -(u / 2) - 1
  }

  /** The varint at the head of b, of which i bytes holding u are already read. */
  function VarintFrom(b: Bytes, i: nat, max: nat, u: nat): (r: Result<int>)
    ensures r.Ok? ==> |r.rest| < |b|
    decreases |b|
  {
    if i >= max || b == [] then Fail
    else
      var u' := (u + (b[0] % 128) * Pow128(i)) % TWO64;
      if b[0] < 128 then Ok(Unzigzag(u'), b[1..]) else VarintFrom(b[1..], i + 1, max, u')
  }

  function Varint(b: Bytes, max: nat): (r: Result<int>)
    ensures r.Ok? ==> |r.rest| < |b|
  {
    VarintFrom(b, 0, max, 0)
  }

  function Take(b: Bytes, n: int): (r: Result<Bytes>)
    ensures r.Ok? ==> |r.rest| <= |b|
  {
    if n < 0 || n > |b| then Fail else Ok(b[..n], b[n..])
  }

  /** Two's complement negation of an int64: the least one is its own. */
  function Neg64(n: int): int {
    if n == MIN64 then MIN64 else -n
  }

  function BlockCount(b: Bytes): (r: Result<int>)
    ensures r.Ok? ==> |r.rest| < |b|
  {
    var n := Varint(b, 10);
    if n.Fail? then Fail
    else if n.value >= 0 then n
    else
      var size := Varint(n.rest, 10);
      if size.Fail? then Fail else Ok(Neg64(n.value), size.rest)
  }

  function Counted(b: Bytes): (r: Result<Bytes>)
    ensures r.Ok? ==> |r.rest| < |b|
  {
    var n := Varint(b, 10);
    if n.Fail? then Fail else Take(n.rest, n.value)
  }

  function Key(keyed: bool, b: Bytes): (r: Result<Bytes>)
    ensures r.Ok? ==> |r.rest| <= |b|
  {
    if keyed then Counted(b) else Ok([], b)
  }

  function Values(entries: seq<Entry>): (vs: seq<Value>)
    ensures |vs| == |entries|
  {
    seq(|entries|, i requires 0 <= i < |entries| => entries[i].value)
  }

  function MapResult<T, U>(r: Result<T>, f: T -> U): Result<U> {
    if r.Fail? then Fail else Ok(f(r.value), r.rest)
  }

  /** What a reader of schema s finds at the head of b, and what it leaves. */
  ghost function Decode(names: Names, g: Guard, k: nat, s: Schema, b: Bytes): (r: Result<Value>)
    requires Resolved(names, g) && k <= g.top && Guarded(names, g, s, k)
    ensures r.Ok? ==> |r.rest| <= |b|
    decreases |b|, k, s
  {
    match s
    case Ref(n) => Decode(names, g, g.rank[n], names[n], b)
    case Null => Ok(VNil, b)
    case Boolean => MapResult(Take(b, 1), (x: Bytes) => VBool(x != [0]))
    case Int(_) =>
      var n := Varint(b, 5);
      if n.Ok? && MIN32 <= n.value <= MAX32 then Ok(VInt(n.value), n.rest) else Fail
    case Long(l) => MapResult(Varint(b, 10), n => LongValue(l, n))
    case Float => MapResult(Take(b, 4), x => VFloat(x))
    case Double => MapResult(Take(b, 8), x => VDouble(x))
    case Blob(_) => MapResult(Counted(b), x => VBlob(x))
    case Text(_) => MapResult(Counted(b), x => VText(x))
    case Fixed(_, size) => MapResult(Take(b, size), x => VFixed(x))
    case Enum(_, symbols) =>
      var n := Varint(b, 5);
      if n.Ok? && 0 <= n.value < |symbols| then Ok(VText(symbols[n.value]), n.rest) else Fail
    case Array(items) =>
      MapResult(DecodeBlocks(names, g, items, false, b, []), es => VList(Values(es)))
    case Map(values) =>
      MapResult(DecodeBlocks(names, g, values, true, b, []), es => VMap(es))
    case Record(_, fields) => MapResult(DecodeFields(names, g, k, fields, b, map[]), m => VRecord(m))
    case Union(types) =>
      var n := Varint(b, 10);
      if n.Fail? || n.value < 0 || n.value >= |types| then Fail
      else
        var t := types[n.value];
        MapResult(Decode(names, g, g.top, t, n.rest), v => Wrap(Deref(names, t), v))
  }

  ghost function DecodeFields(names: Names, g: Guard, k: nat, fields: seq<Field>, b: Bytes, out: map<Bytes, Value>)
    : (r: Result<map<Bytes, Value>>)
    requires Resolved(names, g) && k <= g.top && forall f <- fields :: Guarded(names, g, f.typ, k)
    ensures r.Ok? ==> |r.rest| <= |b|
    decreases |b|, k, fields
  {
    if fields == [] then Ok(out, b)
    else
      var v := Decode(names, g, k, fields[0].typ, b);
      if v.Fail? then Fail
      else DecodeFields(names, g, k, fields[1..], v.rest, out[fields[0].name := v.value])
  }

  ghost function DecodeBlocks(names: Names, g: Guard, items: Schema, keyed: bool, b: Bytes, out: seq<Entry>)
    : (r: Result<seq<Entry>>)
    requires Resolved(names, g) && Guarded(names, g, items, g.top)
    ensures r.Ok? ==> |r.rest| <= |b|
    decreases |b|, 0, items
  {
    var n := BlockCount(b);
    if n.Fail? then Fail
    else if n.value == 0 then Ok(out, n.rest)
    else DecodeItems(names, g, items, keyed, n.value, n.rest, out)
  }

  ghost function DecodeItems(names: Names, g: Guard, items: Schema, keyed: bool, n: int, b: Bytes, out: seq<Entry>)
    : (r: Result<seq<Entry>>)
    requires Resolved(names, g) && Guarded(names, g, items, g.top)
    ensures r.Ok? ==> |r.rest| <= |b|
    decreases |b|, g.top + 1, items, if n < 0 then 0 else n
  {
    if n <= 0 then DecodeBlocks(names, g, items, keyed, b, out)
    else
      var key := Key(keyed, b);
      if key.Fail? then Fail
      else
        var v := Decode(names, g, g.top, items, key.rest);
        if v.Fail? then Fail
        else DecodeItems(names, g, items, keyed, n - 1, v.rest, out + [Entry(key.value, v.value)])
  }

  // --------------------------------------------------------------- encoding

  /** A value and the way it is written: its union branches, and its arrays' and maps' blocks. */
  datatype Datum =
    | DNull
    | DBool(b: bool)
    | DNumber(n: int)
    | DRaw(bytes: Bytes)
    | DSymbol(index: nat)
    | DBlocks(blocks: seq<Block>)
    | DRecord(values: seq<Datum>)
    | DBranch(index: nat, datum: Datum)
  // size is the block's size in bytes, when it is written (after a negative count).
  datatype Block = Block(items: seq<Item>, size: Option<int>)
  datatype Item = Item(key: Bytes, datum: Datum)

  predicate Is64(n: int) {
    MIN64 <= n <= MAX64
  }

  /** d is a datum of schema s. */
  ghost predicate DatumOf(names: Names, s: Schema, d: Datum): (r: bool)
    ensures r ==> Known(names, s)
    decreases d, s.Ref?
  {
    if s.Ref? then s.name in names && !names[s.name].Ref? && DatumOf(names, names[s.name], d)
    else
      match (s, d)
      case (Null, DNull) => true
      case (Boolean, DBool(_)) => true
      case (Int(_), DNumber(n)) => MIN32 <= n <= MAX32
      case (Long(_), DNumber(n)) => Is64(n)
      case (Float, DRaw(x)) => |x| == 4
      case (Double, DRaw(x)) => |x| == 8
      case (Blob(_), DRaw(x)) => |x| <= MAX64
      case (Text(_), DRaw(x)) => |x| <= MAX64
      case (Fixed(_, size), DRaw(x)) => |x| == size
      case (Enum(_, symbols), DSymbol(i)) => i < |symbols| && i <= MAX32
      case (Array(items), DBlocks(blocks)) =>
        forall k | 0 <= k < |blocks| :: BlockOf(names, items, false, blocks[k])
      case (Map(values), DBlocks(blocks)) =>
        forall k | 0 <= k < |blocks| :: BlockOf(names, values, true, blocks[k])
      case (Record(_, fields), DRecord(values)) =>
        && |values| == |fields|
        && forall k | 0 <= k < |values| :: DatumOf(names, fields[k].typ, values[k])
      case (Union(types), DBranch(i, v)) => i < |types| && i <= MAX64 && DatumOf(names, types[i], v)
      case _ => false
  }

  ghost predicate BlockOf(names: Names, items: Schema, keyed: bool, block: Block)
    decreases block, 0
  {
    && 0 < |block.items| <= MAX64
    && (block.size.Some? ==> Is64(block.size.value))
    && ItemsOf(names, items, keyed, block.items)
  }

  ghost predicate ItemsOf(names: Names, items: Schema, keyed: bool, its: seq<Item>)
    decreases its, 1
  {
    its == [] || (ItemOf(names, items, keyed, its[0]) && ItemsOf(names, items, keyed, its[1..]))
  }

  ghost predicate ItemOf(names: Names, items: Schema, keyed: bool, item: Item)
    decreases item, 0
  {
    && (if keyed then |item.key| <= MAX64 else item.key == [])
    && DatumOf(names, items, item.datum)
  }

  function Zigzag(n: int): nat {
    if n >= 0 then 2 * n else -2 * n - 1
  }

  function EncodeNat(u: nat): Bytes {
    if u < 128 then [u] else [128 + u % 128] + EncodeNat(u / 128)
  }

  function EncodeLong(n: int): Bytes {
    EncodeNat(Zigzag(n))
  }

  function EncodeCounted(x: Bytes): Bytes {
    EncodeLong(|x|) + x
  }

  function Encode(names: Names, s: Schema, d: Datum): Bytes
    decreases d, s.Ref?
  {
    if s.Ref? then
      if s.name in names && !names[s.name].Ref? then Encode(names, names[s.name], d) else []
    else
      match (s, d)
      case (_, DBool(b)) => if b then [1] else [0]
      case (_, DNumber(n)) => EncodeLong(n)
      case (Blob(_), DRaw(x)) => EncodeCounted(x)
      case (Text(_), DRaw(x)) => EncodeCounted(x)
      case (_, DRaw(x)) => x
      case (_, DSymbol(i)) => EncodeLong(i)
      case (Array(items), DBlocks(blocks)) => EncodeBlocks(names, items, false, blocks)
      case (Map(values), DBlocks(blocks)) => EncodeBlocks(names, values, true, blocks)
      case (Record(_, fields), DRecord(values)) => EncodeFields(names, fields, values)
      case (Union(types), DBranch(i, v)) =>
        if i < |types| then EncodeLong(i) + Encode(names, types[i], v) else []
      case _ => []
  }

  function EncodeFields(names: Names, fields: seq<Field>, values: seq<Datum>): Bytes
    decreases values
  {
    if fields == [] || values == [] then []
    else Encode(names, fields[0].typ, values[0]) + EncodeFields(names, fields[1..], values[1..])
  }

  function EncodeBlocks(names: Names, items: Schema, keyed: bool, blocks: seq<Block>): Bytes
    decreases blocks
  {
    if blocks == [] then EncodeLong(0)
    else
      EncodeHeader(blocks[0])
      + EncodeItems(names, items, keyed, blocks[0].items)
      + EncodeBlocks(names, items, keyed, blocks[1..])
  }

  function EncodeHeader(block: Block): Bytes {
    match block.size
    case None => EncodeLong(|block.items|)
    case Some(size) => EncodeLong(-|block.items|) + EncodeLong(size)
  }

  function EncodeItems(names: Names, items: Schema, keyed: bool, its: seq<Item>): Bytes
    decreases its
  {
    if its == [] then []
    else
      EncodeItem(names, items, keyed, its[0]) + EncodeItems(names, items, keyed, its[1..])
  }

  /** An item is its key, when it has one, and its value. */
  function EncodeItem(names: Names, items: Schema, keyed: bool, it: Item): Bytes
    decreases it, 0
  {
    EncodeKey(keyed, it.key) + Encode(names, items, it.datum)
  }

  function EncodeKey(keyed: bool, key: Bytes): Bytes {
    if keyed then EncodeCounted(key) else []
  }

  /** The value a datum stands for, however it is written. */
  function Meaning(names: Names, s: Schema, d: Datum): Value
    decreases d, s.Ref?
  {
    if s.Ref? then
      if s.name in names && !names[s.name].Ref? then Meaning(names, names[s.name], d) else VNil
    else
      match (s, d)
      case (_, DBool(b)) => VBool(b)
      case (Int(_), DNumber(n)) => VInt(n)
      case (Long(l), DNumber(n)) => LongValue(l, n)
      case (Float, DRaw(x)) => VFloat(x)
      case (Double, DRaw(x)) => VDouble(x)
      case (Blob(_), DRaw(x)) => VBlob(x)
      case (Text(_), DRaw(x)) => VText(x)
      case (Fixed(_, _), DRaw(x)) => VFixed(x)
      case (Enum(_, symbols), DSymbol(i)) => if i < |symbols| then VText(symbols[i]) else VNil
      case (Array(items), DBlocks(blocks)) => VList(Values(Entries(names, items, blocks)))
      case (Map(values), DBlocks(blocks)) => VMap(Entries(names, values, blocks))
      case (Record(_, fields), DRecord(values)) => VRecord(Fields(names, fields, values, map[]))
      case (Union(types), DBranch(i, v)) =>
        if i < |types| && Known(names, types[i])
        then Wrap(Deref(names, types[i]), Meaning(names, types[i], v)) else VNil
      case _ => VNil
  }

  function Fields(names: Names, fields: seq<Field>, values: seq<Datum>, out: map<Bytes, Value>): map<Bytes, Value>
    decreases values
  {
    if fields == [] || values == [] then out
    else
      Fields(names, fields[1..], values[1..], out[fields[0].name := Meaning(names, fields[0].typ, values[0])])
  }

  /** The entries of all blocks in order: where one ends and the next begins does not show. */
  function Entries(names: Names, items: Schema, blocks: seq<Block>): seq<Entry>
    decreases blocks
  {
    if blocks == [] then []
    else ItemEntries(names, items, blocks[0].items) + Entries(names, items, blocks[1..])
  }

  function ItemEntries(names: Names, items: Schema, its: seq<Item>): seq<Entry>
    decreases its
  {
    if its == [] then []
    else
      [Entry(its[0].key, Meaning(names, items, its[0].datum))] + ItemEntries(names, items, its[1..])
  }

  // -------------------------------------------------------------- round trip

  lemma {:induction false} VarintReads(v: nat, i: nat, max: nat, u: nat, tail: Bytes)
    requires i < max && u < Pow128(i) && v < Pow128(max - i)
    requires u + v * Pow128(i) < TWO64
    ensures VarintFrom(EncodeNat(v) + tail, i, max, u) == Ok(Unzigzag(u + v * Pow128(i)), tail)
    decreases max - i
  {
    var b, p := EncodeNat(v) + tail, Pow128(i);
    VarintStep(u, v, p);
    var u' := u + (v % 128) * p;
    EncodedByte(v, tail);
    VarintByte(b, i, max, u, u');
    assert max - i == 1 ==> Pow128(max - i) == 128 * Pow128(0);
    if v >= 128 {
      VarintReads(v / 128, i + 1, max, u', tail);
    }
  }

  lemma EncodedByte(v: nat, tail: Bytes)
    ensures var b := EncodeNat(v) + tail;
      b != [] && b[0] % 128 == v % 128 && (b[0] < 128 <==> v < 128)
      && b[1..] == if v < 128 then tail else EncodeNat(v / 128) + tail
  {
    if v < 128 {
      Cons(v, tail);
    } else {
      Assoc([128 + v % 128], EncodeNat(v / 128), tail);
      Cons(128 + v % 128, EncodeNat(v / 128) + tail);
    }
  }

  lemma VarintByte(b: Bytes, i: nat, max: nat, u: nat, u': nat)
    requires i < max && b != [] && u' == u + (b[0] % 128) * Pow128(i) < TWO64
    ensures VarintFrom(b, i, max, u)
         == if b[0] < 128 then Ok(Unzigzag(u'), b[1..]) else VarintFrom(b[1..], i + 1, max, u')
  {
    assert u' % TWO64 == u';
  }

  lemma VarintStep(u: nat, v: nat, p: nat)
    requires u < p
    ensures u + (v % 128) * p < 128 * p
    ensures u + (v % 128) * p + (v / 128) * (128 * p) == u + v * p
    ensures u + (v % 128) * p <= u + v * p
    ensures v < 128 ==> u + (v % 128) * p == u + v * p
  {
    var q, r := v / 128, v % 128;
    Distribute(128 * q, r, p);
    assert v * p == (128 * q) * p + r * p;
    assert (128 * q) * p == q * (128 * p);
    Monotone(r, 127, p);
    Monotone(0, q, 128 * p);
  }

  lemma Distribute(a: int, b: int, c: int)
    ensures (a + b) * c == a * c + b * c
  {}

  lemma Monotone(a: nat, b: nat, c: nat)
    requires a <= b
    ensures a * c <= b * c
  {}

  lemma Pow128Values()
    ensures Pow128(0) == 1 && Pow128(5) == 0x8_0000_0000 && Pow128(10) == 0x40_0000_0000_0000_0000
  {
    assert Pow128(3) == 128 * 128 * 128 * Pow128(0);
    assert Pow128(5) == 128 * 128 * Pow128(3);
    assert Pow128(8) == 128 * 128 * 128 * Pow128(5);
    assert Pow128(10) == 128 * 128 * Pow128(8);
  }

  lemma LongReads(n: int, max: nat, tail: Bytes)
    requires (max == 10 && Is64(n)) || (max == 5 && MIN32 <= n <= MAX32)
    ensures Varint(EncodeLong(n) + tail, max) == Ok(n, tail)
  {
    Pow128Values();
    ZigzagReads(n, Zigzag(n), max, tail);
  }

  lemma ZigzagReads(n: int, u: nat, max: nat, tail: Bytes)
    requires u == Zigzag(n) && u < TWO64 && max > 0 && u < Pow128(max) && Pow128(0) == 1
    ensures Varint(EncodeNat(u) + tail, max) == Ok(n, tail)
  {
    TimesOne(u, Pow128(0));
    VarintReads(u, 0, max, 0, tail);
    UnzigzagZigzag(n);
  }

  lemma TimesOne(u: nat, p: nat)
    requires p == 1
    ensures 0 + u * p == u
  {}

  lemma UnzigzagZigzag(n: int)
    ensures Unzigzag(Zigzag(n)) == n
  {}

  lemma CountedReads(x: Bytes, tail: Bytes)
    requires |x| <= MAX64
    ensures Counted(EncodeCounted(x) + tail) == Ok(x, tail)
  {
    assert EncodeCounted(x) + tail == EncodeLong(|x|) + (x + tail);
    LongReads(|x|, 10, x + tail);
    assert (x + tail)[..|x|] == x && (x + tail)[|x|..] == tail;
  }

  lemma HeaderReads(block: Block, tail: Bytes)
    requires 0 < |block.items| <= MAX64 && (block.size.Some? ==> Is64(block.size.value))
    ensures BlockCount(EncodeHeader(block) + tail) == Ok(|block.items|, tail)
  {
    match block.size
    case None => LongReads(|block.items|, 10, tail);
    case Some(size) =>
      assert EncodeHeader(block) + tail == EncodeLong(-|block.items|) + (EncodeLong(size) + tail);
      LongReads(-|block.items|, 10, EncodeLong(size) + tail);
      LongReads(size, 10, tail);
  }

  lemma ScalarReads(names: Names, g: Guard, k: nat, s: Schema, d: Datum, tail: Bytes)
    requires Resolved(names, g) && k <= g.top && Guarded(names, g, s, k) && DatumOf(names, s, d)
    requires !s.Ref? && !d.DBlocks? && !d.DRecord? && !d.DBranch?
    ensures Decode(names, g, k, s, Encode(names, s, d) + tail) == Ok(Meaning(names, s, d), tail)
  {
    match d
    case DNull => assert Encode(names, s, d) + tail == tail;
    case DBool(b) =>
      var x: Bytes := if b then [1] else [0];
      assert (x + tail)[..1] == x && (x + tail)[1..] == tail;
    case DNumber(n) => LongReads(n, if s.Int? then 5 else 10, tail);
    case DRaw(x) =>
      if s.Blob? || s.Text? {
        CountedReads(x, tail);
      } else {
        assert (x + tail)[..|x|] == x && (x + tail)[|x|..] == tail;
      }
    case DSymbol(i) => LongReads(i, 5, tail);
  }

  lemma BranchReads(names: Names, g: Guard, k: nat, types: seq<Schema>, i: nat, bytes: Bytes, v: Value, tail: Bytes)
    requires Resolved(names, g) && k <= g.top && i < |types| && i <= MAX64
    requires forall t <- types :: Guarded(names, g, t, g.top)
    requires Decode(names, g, g.top, types[i], bytes + tail) == Ok(v, tail)
    ensures Decode(names, g, k, Union(types), EncodeLong(i) + bytes + tail) == Ok(Wrap(Deref(names, types[i]), v), tail)
  {
    LongReads(i, 10, bytes + tail);
    Assoc(EncodeLong(i), bytes, tail);
  }

  /**
   Whatever the schema, the value and the way it is written, the reader finds that value and
   stops right after it.
   */
  lemma {:induction false} RoundTrip(names: Names, g: Guard, k: nat, s: Schema, d: Datum, tail: Bytes)
    requires Resolved(names, g) && k <= g.top && Guarded(names, g, s, k) && DatumOf(names, s, d)
    ensures Decode(names, g, k, s, Encode(names, s, d) + tail) == Ok(Meaning(names, s, d), tail)
    decreases d, s.Ref?
  {
    if s.Ref? {
      RoundTrip(names, g, g.rank[s.name], names[s.name], d, tail);
    } else if s.Array? {
      BlocksRoundTrip(names, g, s.items, false, d.blocks, [], tail);
      assert [] + Entries(names, s.items, d.blocks) == Entries(names, s.items, d.blocks);
    } else if s.Map? {
      BlocksRoundTrip(names, g, s.values, true, d.blocks, [], tail);
      assert [] + Entries(names, s.values, d.blocks) == Entries(names, s.values, d.blocks);
    } else if s.Record? {
      FieldsRoundTrip(names, g, k, s.fields, d.values, map[], tail);
    } else if s.Union? {
      var t := s.types[d.index];
      RoundTrip(names, g, g.top, t, d.datum, tail);
      BranchReads(names, g, k, s.types, d.index, Encode(names, t, d.datum), Meaning(names, t, d.datum), tail);
    } else {
      ScalarReads(names, g, k, s, d, tail);
    }
  }

  lemma {:induction false} FieldsRoundTrip(names: Names, g: Guard, k: nat, fields: seq<Field>, values: seq<Datum>,
                          out: map<Bytes, Value>, tail: Bytes)
    requires Resolved(names, g) && k <= g.top && |values| == |fields|
    requires forall f <- fields :: Guarded(names, g, f.typ, k)
    requires forall j | 0 <= j < |values| :: DatumOf(names, fields[j].typ, values[j])
    ensures DecodeFields(names, g, k, fields, EncodeFields(names, fields, values) + tail, out)
         == Ok(Fields(names, fields, values, out), tail)
    decreases values
  {
    var b := EncodeFields(names, fields, values) + tail;
    if values == [] {
      assert b == tail;
    } else {
      var rest := EncodeFields(names, fields[1..], values[1..]) + tail;
      Assoc(Encode(names, fields[0].typ, values[0]), EncodeFields(names, fields[1..], values[1..]), tail);
      RoundTrip(names, g, k, fields[0].typ, values[0], rest);
      var v := Meaning(names, fields[0].typ, values[0]);
      FieldsRoundTrip(names, g, k, fields[1..], values[1..], out[fields[0].name := v], tail);
    }
  }

  lemma {:induction false} BlocksRoundTrip(names: Names, g: Guard, items: Schema, keyed: bool, blocks: seq<Block>,
                          out: seq<Entry>, tail: Bytes)
    requires Resolved(names, g) && Guarded(names, g, items, g.top)
    requires forall j | 0 <= j < |blocks| :: BlockOf(names, items, keyed, blocks[j])
    ensures DecodeBlocks(names, g, items, keyed, EncodeBlocks(names, items, keyed, blocks) + tail, out)
         == Ok(out + Entries(names, items, blocks), tail)
    decreases blocks, 0
  {
    if blocks == [] {
      LongReads(0, 10, tail);
      assert out + [] == out;
    } else {
      assert BlockOf(names, items, keyed, blocks[0]);
      var its, left := blocks[0].items, blocks[1..];
      var bytes, more := EncodeItems(names, items, keyed, its), EncodeBlocks(names, items, keyed, left);
      var entries := ItemEntries(names, items, its);
      BlockReads(names, g, items, keyed, blocks[0], bytes, more + tail, out);
      Assoc(EncodeHeader(blocks[0]) + bytes, more, tail);
      ItemsRoundTrip(names, g, items, keyed, its, out, more + tail);
      BlocksRoundTrip(names, g, items, keyed, left, out + entries, tail);
      Assoc(out, entries, Entries(names, items, left));
    }
  }

  /** A block's header leads to its items. */
  lemma BlockReads(names: Names, g: Guard, items: Schema, keyed: bool, block: Block, bytes: Bytes, rest: Bytes,
                   out: seq<Entry>)
    requires Resolved(names, g) && Guarded(names, g, items, g.top)
    requires 0 < |block.items| <= MAX64 && (block.size.Some? ==> Is64(block.size.value))
    ensures DecodeBlocks(names, g, items, keyed, EncodeHeader(block) + bytes + rest, out)
         == DecodeItems(names, g, items, keyed, |block.items|, bytes + rest, out)
  {
    HeaderReads(block, bytes + rest);
    Assoc(EncodeHeader(block), bytes, rest);
  }

  /** Reading a block's items goes on as if its entries had been read before the next block. */
  lemma {:induction false} ItemsRoundTrip(names: Names, g: Guard, items: Schema, keyed: bool, its: seq<Item>,
                         out: seq<Entry>, rest: Bytes)
    requires Resolved(names, g) && Guarded(names, g, items, g.top)
    requires ItemsOf(names, items, keyed, its)
    ensures DecodeItems(names, g, items, keyed, |its|, EncodeItems(names, items, keyed, its) + rest, out)
         == DecodeBlocks(names, g, items, keyed, rest, out + ItemEntries(names, items, its))
    decreases its
  {
    if its == [] {
      assert [] + rest == rest && out + [] == out;
    } else {
      var first, left := its[0], its[1..];
      var e := Entry(first.key, Meaning(names, items, first.datum));
      var bytes, more := EncodeItem(names, items, keyed, first), EncodeItems(names, items, keyed, left) + rest;
      calc {
        DecodeItems(names, g, items, keyed, |its|, EncodeItems(names, items, keyed, its) + rest, out);
        { ItemsSplit(names, items, keyed, its, out, rest); }
        DecodeItems(names, g, items, keyed, |its|, bytes + more, out);
        { ItemRoundTrip(names, g, items, keyed, |its|, first, out, more); }
        DecodeItems(names, g, items, keyed, |left|, more, out + [e]);
        { ItemsRoundTrip(names, g, items, keyed, left, out + [e], rest); }
        DecodeBlocks(names, g, items, keyed, rest, out + [e] + ItemEntries(names, items, left));
        { ItemsSplit(names, items, keyed, its, out, rest); }
        DecodeBlocks(names, g, items, keyed, rest, out + ItemEntries(names, items, its));
      }
    }
  }

  lemma ItemsSplit(names: Names, items: Schema, keyed: bool, its: seq<Item>, out: seq<Entry>, rest: Bytes)
    requires its != []
    ensures EncodeItems(names, items, keyed, its) + rest
         == EncodeItem(names, items, keyed, its[0]) + (EncodeItems(names, items, keyed, its[1..]) + rest)
    ensures out + ItemEntries(names, items, its)
         == out + [Entry(its[0].key, Meaning(names, items, its[0].datum))] + ItemEntries(names, items, its[1..])
  {
    var e := Entry(its[0].key, Meaning(names, items, its[0].datum));
    Assoc(EncodeItem(names, items, keyed, its[0]), EncodeItems(names, items, keyed, its[1..]), rest);
    Assoc(out, [e], ItemEntries(names, items, its[1..]));
  }

  lemma {:induction false} ItemRoundTrip(names: Names, g: Guard, items: Schema, keyed: bool, n: nat, it: Item,
                         out: seq<Entry>, rest: Bytes)
    requires Resolved(names, g) && Guarded(names, g, items, g.top) && n > 0
    requires ItemOf(names, items, keyed, it)
    ensures DecodeItems(names, g, items, keyed, n, EncodeItem(names, items, keyed, it) + rest, out)
         == DecodeItems(names, g, items, keyed, n - 1, rest, out + [Entry(it.key, Meaning(names, items, it.datum))])
    decreases it
  {
    var key, datum := EncodeKey(keyed, it.key), Encode(names, items, it.datum);
    RoundTrip(names, g, g.top, items, it.datum, rest);
    KeyReads(keyed, it.key, datum + rest);
    Assoc(key, datum, rest);
  }

  lemma KeyReads(keyed: bool, key: Bytes, rest: Bytes)
    requires if keyed then |key| <= MAX64 else key == []
    ensures Key(keyed, EncodeKey(keyed, key) + rest) == Ok(key, rest)
  {
    if keyed {
      CountedReads(key, rest);
    } else {
      assert [] + rest == rest;
    }
  }

  // -------------------------------------------------------------- the reader

  /** What r and the bytes left say of expected: the value and what follows it, or a refusal. */
  ghost predicate Agrees<T>(r: Option<T>, left: Bytes, expected: Result<T>) {
    if expected.Fail? then r == None else r == Some(expected.value) && left == expected.rest
  }

  class BinReader {
    const data: Bytes
    var pos: nat

    ghost predicate Valid()
      reads this`pos
    {
      pos <= |data|
    }

    ghost function Left(): Bytes
      requires Valid()
      reads this`pos
    {
      data[pos..]
    }

    constructor (data: Bytes)
      ensures Valid() && this.data == data && pos == 0
    {
      this.data := data;
      pos := 0;
    }

    method ReadVarint(maxBytes: nat) returns (r: Option<int>)
      requires Valid()
      modifies this`pos
      ensures Valid() && old(pos) <= pos
      ensures Agrees(r, Left(), Varint(old(Left()), maxBytes))
    {
      var u: nat := 0;
      for i := 0 to maxBytes
        invariant Valid() && old(pos) <= pos
        invariant VarintFrom(Left(), i, maxBytes, u) == Varint(old(Left()), maxBytes)
      {
        if pos >= |data| {
          return None;
        }
        var c := data[pos];
        ghost var left := Left();
        pos := pos + 1;
        assert left[1..] == Left();
        u := (u + (c % 128) * Pow128(i)) % TWO64;
        if c < 128 {
          return Some(Unzigzag(u));
        }
      }
      return None;
    }

    method ReadTake(n: int) returns (r: Option<Bytes>)
      requires Valid()
      modifies this`pos
      ensures Valid() && old(pos) <= pos
      ensures Agrees(r, Left(), Take(old(Left()), n))
    {
      if n < 0 || n > |data| - pos {
        return None;
      }
      var b := data[pos..pos + n];
      ghost var left := Left();
      pos := pos + n;
      assert left[..n] == b && left[n..] == Left();
      return Some(b);
    }

    method ReadCounted() returns (r: Option<Bytes>)
      requires Valid()
      modifies this`pos
      ensures Valid() && old(pos) <= pos
      ensures Agrees(r, Left(), Counted(old(Left())))
    {
      var n := ReadVarint(10);
      if n == None {
        return None;
      }
      r := ReadTake(n.value);
    }

    method ReadKey(keyed: bool) returns (r: Option<Bytes>)
      requires Valid()
      modifies this`pos
      ensures Valid() && old(pos) <= pos
      ensures Agrees(r, Left(), Key(keyed, old(Left())))
    {
      if !keyed {
        return Some([]);
      }
      r := ReadCounted();
    }

    method ReadBlockCount() returns (r: Option<int>)
      requires Valid()
      modifies this`pos
      ensures Valid() && old(pos) <= pos
      ensures Agrees(r, Left(), BlockCount(old(Left())))
    {
      var n := ReadVarint(10);
      if n == None {
        return None;
      }
      if n.value >= 0 {
        return n;
      }
      var size := ReadVarint(10);
      if size == None {
        return None;
      }
      return Some(Neg64(n.value));
    }

    /** Reads a value of s. The cursor only grows, and on any bytes this ends. */
    method ReadValue(names: Names, s: Schema, ghost g: Guard, ghost k: nat) returns (r: Option<Value>)
      requires Valid() && Resolved(names, g) && k <= g.top && Guarded(names, g, s, k)
      modifies this`pos
      ensures Valid() && old(pos) <= pos
      ensures Agrees(r, Left(), Decode(names, g, k, s, old(Left())))
      decreases |data| - pos, k, s, 1
    {
      match s
      case Ref(n) => r := ReadValue(names, names[n], g, g.rank[n]);
      case Null => return Some(VNil);
      case Boolean =>
        var b := ReadTake(1);
        return if b == None then None else Some(VBool(b.value[0] != 0));
      case Int(_) =>
        var n := ReadVarint(5);
        return if n == None || n.value > MAX32 || n.value < MIN32 then None else Some(VInt(n.value));
      case Long(l) =>
        var n := ReadVarint(10);
        return if n == None then None else Some(LongValue(l, n.value));
      case Float =>
        var b := ReadTake(4);
        return if b == None then None else Some(VFloat(b.value));
      case Double =>
        var b := ReadTake(8);
        return if b == None then None else Some(VDouble(b.value));
      case Blob(_) =>
        var b := ReadCounted();
        return if b == None then None else Some(VBlob(b.value));
      case Text(_) =>
        var b := ReadCounted();
        return if b == None then None else Some(VText(b.value));
      case Fixed(_, size) =>
        var b := ReadTake(size);
        return if b == None then None else Some(VFixed(b.value));
      case Enum(_, symbols) =>
        var n := ReadVarint(5);
        return if n == None || n.value < 0 || n.value >= |symbols| then None else Some(VText(symbols[n.value]));
      case Array(items) =>
        var out := ReadBlocks(names, items, false, g);
        return if out == None then None else Some(VList(Values(out.value)));
      case Map(values) =>
        var out := ReadBlocks(names, values, true, g);
        return if out == None then None else Some(VMap(out.value));
      case Record(_, fields) => r := ReadFields(names, fields, g, k);
      case Union(types) => r := ReadBranch(names, types, g, k);
    }

    method ReadBranch(names: Names, types: seq<Schema>, ghost g: Guard, ghost k: nat) returns (r: Option<Value>)
      requires Valid() && Resolved(names, g) && k <= g.top && Guarded(names, g, Union(types), k)
      modifies this`pos
      ensures Valid() && old(pos) <= pos
      ensures Agrees(r, Left(), Decode(names, g, k, Union(types), old(Left())))
      decreases |data| - pos, k, types, 0
    {
      var n := ReadVarint(10);
      if n == None || n.value < 0 || n.value >= |types| {
        return None;
      }
      var v := ReadValue(names, types[n.value], g, g.top);
      return if v == None then None else Some(Wrap(Deref(names, types[n.value]), v.value));
    }

    method ReadFields(names: Names, fields: seq<Field>, ghost g: Guard, ghost k: nat) returns (r: Option<Value>)
      requires Valid() && Resolved(names, g) && k <= g.top && forall f <- fields :: Guarded(names, g, f.typ, k)
      modifies this`pos
      ensures Valid() && old(pos) <= pos
      ensures Agrees(r, Left(), MapResult(DecodeFields(names, g, k, fields, old(Left()), map[]), m => VRecord(m)))
      decreases |data| - pos, k, fields, 0
    {
      ghost var expected := DecodeFields(names, g, k, fields, Left(), map[]);
      var out: map<Bytes, Value> := map[];
      assert fields[0..] == fields;
      for i := 0 to |fields|
        invariant Valid() && old(pos) <= pos
        invariant DecodeFields(names, g, k, fields[i..], Left(), out) == expected
      {
        assert fields[i..][0] == fields[i] && fields[i..][1..] == fields[i + 1..];
        var v := ReadValue(names, fields[i].typ, g, k);
        if v == None {
          return None;
        }
        out := out[fields[i].name := v.value];
      }
      return Some(VRecord(out));
    }

    /** The entries of an array, without keys, or of a map. */
    method ReadBlocks(names: Names, items: Schema, keyed: bool, ghost g: Guard) returns (r: Option<seq<Entry>>)
      requires Valid() && Resolved(names, g) && Guarded(names, g, items, g.top)
      modifies this`pos
      ensures Valid() && old(pos) <= pos
      ensures Agrees(r, Left(), DecodeBlocks(names, g, items, keyed, old(Left()), []))
      decreases |data| - pos, 0, items, 0
    {
      ghost var expected := DecodeBlocks(names, g, items, keyed, Left(), []);
      var out: seq<Entry> := [];
      while true
        invariant Valid() && old(pos) <= pos
        invariant DecodeBlocks(names, g, items, keyed, Left(), out) == expected
        decreases |data| - pos
      {
        ghost var before := pos;
        var n := ReadBlockCount();
        if n == None {
          return None;
        }
        assert pos > before;
        if n.value == 0 {
          return Some(out);
        }
        var more := ReadItems(names, items, keyed, n.value, out, g);
        if more == None {
          return None;
        }
        out := more.value;
      }
    }

    /** Adds a block's n entries to out. */
    method ReadItems(names: Names, items: Schema, keyed: bool, n: int, out: seq<Entry>, ghost g: Guard)
      returns (r: Option<seq<Entry>>)
      requires Valid() && Resolved(names, g) && Guarded(names, g, items, g.top)
      modifies this`pos
      ensures Valid() && old(pos) <= pos
      ensures var expected := DecodeItems(names, g, items, keyed, n, old(Left()), out);
              if r == None then expected.Fail?
              else expected == DecodeBlocks(names, g, items, keyed, Left(), r.value)
      decreases |data| - pos, g.top + 1, items, 0
    {
      ghost var expected := DecodeItems(names, g, items, keyed, n, Left(), out);
      var all, left := out, n;
      while left > 0
        invariant Valid() && old(pos) <= pos
        invariant DecodeItems(names, g, items, keyed, left, Left(), all) == expected
        decreases left
      {
        var key := ReadKey(keyed);
        if key == None {
          return None;
        }
        var v := ReadValue(names, items, g, g.top);
        if v == None {
          return None;
        }
        all := all + [Entry(key.value, v.value)];
        left := left - 1;
      }
      return Some(all);
    }
  }

  /** Reads one value of s; bytes after it are ignored. */
  method DecodeBinary(names: Names, s: Schema, data: Bytes, ghost g: Guard) returns (r: Option<Value>)
    requires Resolved(names, g) && Guarded(names, g, s, g.top)
    ensures var expected := Decode(names, g, g.top, s, data);
            r == if expected.Ok? then Some(expected.value) else None
  {
    var reader := new BinReader(data);
    assert reader.Left() == data;
    r := reader.ReadValue(names, s, g, g.top);
  }

  /** The reader on an encoding, however blocked, with anything after it. */
  method DecodeEncoded(names: Names, s: Schema, d: Datum, tail: Bytes, ghost g: Guard) returns (r: Option<Value>)
    requires Resolved(names, g) && Guarded(names, g, s, g.top) && DatumOf(names, s, d)
    ensures r == Some(Meaning(names, s, d))
  {
    RoundTrip(names, g, g.top, s, d, tail);
    r := DecodeBinary(names, s, Encode(names, s, d) + tail, g);
  }
}
