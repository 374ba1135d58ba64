/**
 Value.Expand of core/value.go: the references in the strings of a JSON text are expanded by looking
 for its quotes, without parsing it. What expand makes of a string is a parameter, None its error.
 */
module ValueExpand {
  import opened Wrappers
  import opened Numbers
  import opened Sequences
  import opened Json

  type Expansion = string -> Option<string>

  // ---------------------------------------------------------------- quoting

  function LowerHex(n: nat): char
    requires n < 16
  {
    "0123456789abcdef"[n]
  }

  /** How Go's JSON encoder writes a character of a string, without HTML escaping. */
  function QuoteUnit(c: char): Unit {
    match c
    case '"' => Escape('"')
    case '\\' => Escape('\\')
    case '\U{0008}' => Escape('b')
    case '\U{000C}' => Escape('f')
    case '\n' => Escape('n')
    case '\r' => Escape('r')
    case '\t' => Escape('t')
    case '\U{2028}' => Hex("2028")
    case '\U{2029}' => Hex("2029")
    case _ => if c < ' ' then Hex(['0', '0', LowerHex(c as int / 16), LowerHex(c as int % 16)]) else Plain(c)
  }

  function QuoteUnits(s: string): seq<Unit> {
    if s == "" then [] else [QuoteUnit(s[0])] + QuoteUnits(s[1..])
  }

  function Quote(s: string): string {
    Print(Str(QuoteUnits(s)), "")
  }

  /** The string a literal denotes, as the decoder reads it: None when it is none. */
  function Unquote(literal: string): Option<string> {
    if literal == "" || literal[0] != '"' then None
    else
      var r := ReadUnits(literal[1..]);
      if r.Bad? || r.rest != "" then None else Some(Unescape(r.value))
  }

  lemma LowerHexMeans(n: nat)
    requires n < 16
    ensures IsHex(LowerHex(n)) && HexValue(LowerHex(n)) == n
  {}

  lemma HexUnitMeans(c: char)
    requires QuoteUnit(c).Hex?
    ensures HexCode(QuoteUnit(c).digits) == c as int && forall h <- QuoteUnit(c).digits :: IsHex(h)
  {
    if c < ' ' {
      LowerHexMeans(c as int / 16);
      LowerHexMeans(c as int % 16);
    }
  }

  lemma {:induction false} QuoteUnitsMean(s: string)
    ensures ValidUnits(QuoteUnits(s)) && Unescape(QuoteUnits(s)) == s
  {
    if s != "" {
      QuoteUnitsMean(s[1..]);
      Cons(QuoteUnit(s[0]), QuoteUnits(s[1..]));
      Uncons(s);
      if QuoteUnit(s[0]).Hex? {
        HexUnitMeans(s[0]);
      }
    }
  }

  /** Reading a quoted string gives it back. */
  lemma UnquoteQuote(s: string)
    ensures Unquote(Quote(s)) == Some(s)
  {
    QuoteUnitsMean(s);
    UnitsRead(QuoteUnits(s), "");
    Cons('"', PrintUnits(QuoteUnits(s), ""));
  }

  lemma UnquotePrinted(units: seq<Unit>)
    requires ValidUnits(units)
    ensures Unquote(['"'] + PrintUnits(units, "")) == Some(Unescape(units))
  {
    UnitsRead(units, "");
    Cons('"', PrintUnits(units, ""));
  }

  // ------------------------------------------------ expanding text, by quotes

  /** Says that the text has a "${". */
  predicate HasReference(s: string) {
    exists i | 0 <= i < |s| - 1 :: s[i] == '$' && s[i + 1] == '{'
  }

  /** A string literal, expanded when its text has a reference. */
  function ExpandLiteral(literal: string, f: Expansion): Option<string> {
    if !HasReference(literal) then Some(literal)
    else
      var s := Unquote(literal);
      if s == None then None
      else
        var t := f(s.value);
        if t == None then None else Some(Quote(t.value))
  }

  /** Every quote that opens a string has one that closes it. */
  predicate Closed(s: string)
    decreases |s|
  {
    s == ""
    || (if s[0] == '"' then Literal(s[1..]).Read? && Closed(Literal(s[1..]).rest) else Closed(s[1..]))
  }

  function Join(a: Option<string>, b: Option<string>): Option<string> {
    if a == None || b == None then None else Some(a.value + b.value)
  }

  function ExpandText(s: string, f: Expansion): Option<string>
    requires Closed(s)
    decreases |s|
  {
    if s == "" then Some("")
    else if s[0] == '"' then
      var lit := Literal(s[1..]);
      Join(ExpandLiteral(['"'] + lit.value, f), ExpandText(lit.rest, f))
    else Join(Some([s[0]]), ExpandText(s[1..], f))
  }

  // ----------------------------------------------- expanding values, by tree

  function ExpandUnits(units: seq<Unit>, f: Expansion): Option<seq<Unit>> {
    if !HasReference(['"'] + PrintUnits(units, "")) then Some(units)
    else
      var t := f(Unescape(units));
      if t == None then None else Some(QuoteUnits(t.value))
  }

  /** The value with the strings that have a reference expanded, its keys too. */
  function Expanded(c: Cst, f: Expansion): Option<Cst>
    decreases c, 0
  {
    match c
    case Str(units) =>
      var u := ExpandUnits(units, f);
      if u == None then None else Some(Str(u.value))
    case Arr(items, gap) =>
      var r := ExpandedItems(items, f);
      if r == None then None else Some(Arr(r.value, gap))
    case Obj(members, gap) =>
      var r := ExpandedMembers(members, f);
      if r == None then None else Some(Obj(r.value, gap))
    case _ => Some(c)
  }

  function ExpandedItem(i: Item, f: Expansion): Option<Item>
    decreases i, 1
  {
    var v := Expanded(i.value, f);
    if v == None then None else Some(Item(i.before, v.value, i.after))
  }

  function ExpandedItems(items: seq<Item>, f: Expansion): (r: Option<seq<Item>>)
    ensures r.Some? ==> |r.value| == |items|
    decreases items, 2
  {
    if items == [] then Some([])
    else
      var first, more := ExpandedItem(items[0], f), ExpandedItems(items[1..], f);
      if first == None || more == None then None else Some([first.value] + more.value)
  }

  function ExpandedMember(m: Member, f: Expansion): Option<Member>
    decreases m, 1
  {
    var name, item := ExpandUnits(m.name, f), ExpandedItem(m.item, f);
    if name == None || item == None then None else Some(Member(m.before, name.value, m.colon, item.value))
  }

  function ExpandedMembers(members: seq<Member>, f: Expansion): (r: Option<seq<Member>>)
    ensures r.Some? ==> |r.value| == |members|
    decreases members, 2
  {
    if members == [] then Some([])
    else
      var first, more := ExpandedMember(members[0], f), ExpandedMembers(members[1..], f);
      if first == None || more == None then None else Some([first.value] + more.value)
  }

  // -------------------------------------------------------------- they agree

  lemma JoinAssoc(a: Option<string>, b: Option<string>, c: Option<string>)
    ensures Join(Join(a, b), c) == Join(a, Join(b, c))
  {
    if a.Some? && b.Some? && c.Some? {
      Assoc(a.value, b.value, c.value);
    }
  }

  lemma JoinEmpty(a: Option<string>)
    ensures Join(Some(""), a) == a
  {
    if a.Some? { assert "" + a.value == a.value; }
  }

  lemma PlainOne(c: char, rest: string, f: Expansion)
    requires Closed(rest) && c != '"'
    ensures Closed([c] + rest) && ExpandText([c] + rest, f) == Join(Some([c]), ExpandText(rest, f))
  {
    Cons(c, rest);
  }

  lemma {:induction false} PlainText(t: string, rest: string, f: Expansion)
    requires Closed(rest) && '"' !in t
    ensures Closed(t + rest) && ExpandText(t + rest, f) == Join(Some(t), ExpandText(rest, f))
  {
    if t == "" {
      assert t + rest == rest;
      JoinEmpty(ExpandText(rest, f));
    } else {
      Uncons(t);
      PlainText(t[1..], rest, f);
      PlainOne(t[0], t[1..] + rest, f);
      Assoc([t[0]], t[1..], rest);
      JoinAssoc(Some([t[0]]), Some(t[1..]), ExpandText(rest, f));
    }
  }

  lemma SpaceIsPlain(ws: string, rest: string, f: Expansion)
    requires Closed(rest) && AllSpace(ws)
    ensures Closed(ws + rest) && ExpandText(ws + rest, f) == Join(Some(ws), ExpandText(rest, f))
  {
    PlainText(ws, rest, f);
  }

  /** The text of a string followed by rest, expanded: u is the string's expansion. */
  function ThenUnits(u: Option<seq<Unit>>, rest: Option<string>): Option<string> {
    if u == None || rest == None then None else Some(['"'] + PrintUnits(u.value, rest.value))
  }

  lemma StringText(units: seq<Unit>, rest: string, f: Expansion)
    requires Closed(rest) && ValidUnits(units)
    ensures var s := ['"'] + PrintUnits(units, rest);
            Closed(s) && ExpandText(s, f) == ThenUnits(ExpandUnits(units, f), ExpandText(rest, f))
  {
    Cons('"', PrintUnits(units, rest));
    LiteralOfUnits(units, rest);
    LiteralText(units, f);
    var u, t := ExpandUnits(units, f), ExpandText(rest, f);
    if u.Some? && t.Some? {
      PrintThen(Str(u.value), "", t.value);
      assert "" + t.value == t.value;
    }
  }

  lemma LiteralText(units: seq<Unit>, f: Expansion)
    requires ValidUnits(units)
    ensures ExpandLiteral(['"'] + PrintUnits(units, ""), f) == ThenUnits(ExpandUnits(units, f), Some(""))
  {
    var s := ['"'] + PrintUnits(units, "");
    UnquotePrinted(units);
    if HasReference(s) {
      assert ExpandLiteral(s, f) == QuotedText(f(Unescape(units)));
    } else {
      assert ExpandLiteral(s, f) == Some(s);
    }
  }

  function QuotedText(t: Option<string>): Option<string> {
    if t == None then None else Some(Quote(t.value))
  }

  /** Four plain texts, one after the other. */
  lemma PlainTexts(a: string, b: string, c: string, d: string, rest: string, f: Expansion)
    requires Closed(rest) && '"' !in a && '"' !in b && '"' !in c && '"' !in d
    ensures Closed(a + (b + (c + (d + rest))))
    ensures ExpandText(a + (b + (c + (d + rest))), f)
         == Join(Some(a), Join(Some(b), Join(Some(c), Join(Some(d), ExpandText(rest, f)))))
  {
    PlainText(d, rest, f);
    PlainText(c, d + rest, f);
    PlainText(b, c + (d + rest), f);
    PlainText(a, b + (c + (d + rest)), f);
  }

  lemma NumberIsPlain(c: Cst)
    requires c.Number? && Valid(c)
    ensures '"' !in c.whole && '"' !in c.fraction && '"' !in c.exponent
  {
    ExponentPlain(c.exponent);
    if c.fraction != "" { Uncons(c.fraction); }
  }

  lemma NumberText(c: Cst, rest: string, f: Expansion)
    requires c.Number? && Valid(c) && Closed(rest)
    ensures Closed(Print(c, rest)) && ExpandText(Print(c, rest), f) == ThenCst(Some(c), ExpandText(rest, f))
  {
    NumberIsPlain(c);
    PlainTexts(if c.minus then "-" else "", c.whole, c.fraction, c.exponent, rest, f);
  }

  function ThenCst(c: Option<Cst>, rest: Option<string>): Option<string> {
    if c == None || rest == None then None else Some(Print(c.value, rest.value))
  }

  function ThenItem(i: Option<Item>, rest: Option<string>): Option<string> {
    if i == None || rest == None then None else Some(PrintItem(i.value, rest.value))
  }

  function ThenItems(items: Option<seq<Item>>, rest: Option<string>): Option<string> {
    if items == None || rest == None then None else Some(PrintItems(items.value, rest.value))
  }

  function ThenMember(m: Option<Member>, rest: Option<string>): Option<string> {
    if m == None || rest == None then None else Some(PrintMember(m.value, rest.value))
  }

  function ThenMembers(members: Option<seq<Member>>, rest: Option<string>): Option<string> {
    if members == None || rest == None then None else Some(PrintMembers(members.value, rest.value))
  }

  /**
   Expanding by quotes is expanding by tree: of every JSON value, exactly the strings with a
   reference change, and every other character stays.
   */
  lemma {:induction false} ValueText(c: Cst, rest: string, f: Expansion)
    requires Valid(c) && Closed(rest)
    ensures Closed(Print(c, rest)) && ExpandText(Print(c, rest), f) == ThenCst(Expanded(c, f), ExpandText(rest, f))
    decreases c, 0
  {
    match c
    case Word(t) => PlainText(t, rest, f);
    case Number(_, _, _, _) => NumberText(c, rest, f);
    case Str(units) => StringText(units, rest, f);
    case Arr(items, gap) => ArrText(items, gap, rest, f);
    case Obj(members, gap) => ObjText(members, gap, rest, f);
  }

  lemma {:induction false} ArrText(items: seq<Item>, gap: string, rest: string, f: Expansion)
    requires Valid(Arr(items, gap)) && Closed(rest)
    ensures var c := Arr(items, gap);
      Closed(Print(c, rest)) && ExpandText(Print(c, rest), f) == ThenCst(Expanded(c, f), ExpandText(rest, f))
    decreases items, 3
  {
    PlainText("]", rest, f);
    ItemsText(items, [']'] + rest, f);
    SpaceIsPlain(gap, PrintItems(items, [']'] + rest), f);
    PlainText("[", gap + PrintItems(items, [']'] + rest), f);
  }

  lemma {:induction false} ObjText(members: seq<Member>, gap: string, rest: string, f: Expansion)
    requires Valid(Obj(members, gap)) && Closed(rest)
    ensures var c := Obj(members, gap);
      Closed(Print(c, rest)) && ExpandText(Print(c, rest), f) == ThenCst(Expanded(c, f), ExpandText(rest, f))
    decreases members, 3
  {
    PlainText("}", rest, f);
    MembersText(members, ['}'] + rest, f);
    SpaceIsPlain(gap, PrintMembers(members, ['}'] + rest), f);
    PlainText("{", gap + PrintMembers(members, ['}'] + rest), f);
  }

  lemma {:induction false} ItemText(i: Item, rest: string, f: Expansion)
    requires ValidItem(i) && Closed(rest)
    ensures Closed(PrintItem(i, rest))
    ensures ExpandText(PrintItem(i, rest), f) == ThenItem(ExpandedItem(i, f), ExpandText(rest, f))
    decreases i, 1
  {
    SpaceIsPlain(i.after, rest, f);
    ValueText(i.value, i.after + rest, f);
    SpaceIsPlain(i.before, Print(i.value, i.after + rest), f);
  }

  lemma {:induction false} ItemsText(items: seq<Item>, rest: string, f: Expansion)
    requires (forall i <- items :: ValidItem(i)) && Closed(rest)
    ensures Closed(PrintItems(items, rest))
    ensures ExpandText(PrintItems(items, rest), f) == ThenItems(ExpandedItems(items, f), ExpandText(rest, f))
    decreases items, 2
  {
    if |items| == 1 {
      ItemText(items[0], rest, f);
    } else if items != [] {
      var left := PrintItems(items[1..], rest);
      ItemsText(items[1..], rest, f);
      PlainText(",", left, f);
      ItemText(items[0], [','] + left, f);
      ItemsJoin(ExpandedItem(items[0], f), ExpandedItems(items[1..], f), ExpandText(rest, f));
    }
  }

  lemma ItemsJoin(first: Option<Item>, more: Option<seq<Item>>, rest: Option<string>)
    requires more.Some? ==> more.value != []
    ensures ThenItem(first, Join(Some(","), ThenItems(more, rest)))
         == ThenItems(if first == None || more == None then None else Some([first.value] + more.value), rest)
  {
    if first.Some? && more.Some? {
      Cons(first.value, more.value);
    }
  }

  lemma {:induction false} MemberText(m: Member, rest: string, f: Expansion)
    requires ValidMember(m) && Closed(rest)
    ensures Closed(PrintMember(m, rest))
    ensures ExpandText(PrintMember(m, rest), f) == ThenMember(ExpandedMember(m, f), ExpandText(rest, f))
    decreases m, 1
  {
    ItemText(m.item, rest, f);
    NameText(m, PrintItem(m.item, rest), f);
  }

  /** A member's name, with what is around it, before its value. */
  lemma NameText(m: Member, item: string, f: Expansion)
    requires ValidMember(m) && Closed(item)
    ensures var s := m.before + (['"'] + PrintUnits(m.name, m.colon + ([':'] + item)));
      var value := Join(Some(m.colon), Join(Some(":"), ExpandText(item, f)));
      Closed(s) && ExpandText(s, f) == Join(Some(m.before), ThenUnits(ExpandUnits(m.name, f), value))
  {
    var value := [':'] + item;
    PlainText(":", item, f);
    SpaceIsPlain(m.colon, value, f);
    StringText(m.name, m.colon + value, f);
    SpaceIsPlain(m.before, ['"'] + PrintUnits(m.name, m.colon + value), f);
  }

  lemma {:induction false} MembersText(members: seq<Member>, rest: string, f: Expansion)
    requires (forall m <- members :: ValidMember(m)) && Closed(rest)
    ensures Closed(PrintMembers(members, rest))
    ensures ExpandText(PrintMembers(members, rest), f) == ThenMembers(ExpandedMembers(members, f), ExpandText(rest, f))
    decreases members, 2
  {
    if |members| == 1 {
      MemberText(members[0], rest, f);
    } else if members != [] {
      var left := PrintMembers(members[1..], rest);
      MembersText(members[1..], rest, f);
      PlainText(",", left, f);
      MemberText(members[0], [','] + left, f);
      MembersJoin(ExpandedMember(members[0], f), ExpandedMembers(members[1..], f), ExpandText(rest, f));
    }
  }

  lemma MembersJoin(first: Option<Member>, more: Option<seq<Member>>, rest: Option<string>)
    requires more.Some? ==> more.value != []
    ensures ThenMember(first, Join(Some(","), ThenMembers(more, rest)))
         == ThenMembers(if first == None || more == None then None else Some([first.value] + more.value), rest)
  {
    if first.Some? && more.Some? {
      Cons(first.value, more.value);
    }
  }

  // ---------------------------------------------------- what expanding keeps

  /** The strings of a value in the order they are written, keys too. */
  function Strings(c: Cst): seq<seq<Unit>>
    decreases c, 0
  {
    match c
    case Str(units) => [units]
    case Arr(items, _) => ItemStrings(items)
    case Obj(members, _) => MemberStrings(members)
    case _ => []
  }

  function ItemStrings(items: seq<Item>): seq<seq<Unit>>
    decreases items, 2
  {
    if items == [] then [] else Strings(items[0].value) + ItemStrings(items[1..])
  }

  function MemberStrings(members: seq<Member>): seq<seq<Unit>>
    decreases members, 2
  {
    if members == [] then []
    else [members[0].name] + Strings(members[0].item.value) + MemberStrings(members[1..])
  }

  /** A value as written, with nothing in its strings: its structure, its numbers, its white space. */
  function Skeleton(c: Cst): Cst
    decreases c, 0
  {
    match c
    case Str(_) => Str([])
    case Arr(items, gap) => Arr(ItemSkeletons(items), gap)
    case Obj(members, gap) => Obj(MemberSkeletons(members), gap)
    case _ => c
  }

  function SkeletonItem(i: Item): Item
    decreases i, 1
  {
    Item(i.before, Skeleton(i.value), i.after)
  }

  function ItemSkeletons(items: seq<Item>): seq<Item>
    decreases items, 2
  {
    if items == [] then [] else [SkeletonItem(items[0])] + ItemSkeletons(items[1..])
  }

  function MemberSkeletons(members: seq<Member>): seq<Member>
    decreases members, 2
  {
    if members == [] then []
    else
      [Member(members[0].before, [], members[0].colon, SkeletonItem(members[0].item))] + MemberSkeletons(members[1..])
  }

  /** Each string of after is that of before, or stands for what f makes of it when it has a reference. */
  ghost predicate StringsExpanded(before: seq<seq<Unit>>, after: seq<seq<Unit>>, f: Expansion) {
    && |before| == |after|
    && forall k | 0 <= k < |before| ::
         if HasReference(PrintUnits(before[k], "")) then f(Unescape(before[k])) == Some(Unescape(after[k]))
         else after[k] == before[k]
  }

  lemma ReferenceInside(units: seq<Unit>)
    ensures HasReference(['"'] + PrintUnits(units, "")) <==> HasReference(PrintUnits(units, ""))
  {
    var s, p := ['"'] + PrintUnits(units, ""), PrintUnits(units, "");
    if HasReference(p) {
      var i :| 0 <= i < |p| - 1 && p[i] == '$' && p[i + 1] == '{';
      assert s[i + 1] == '$' && s[i + 1 + 1] == '{';
    }
    if HasReference(s) {
      var i :| 0 <= i < |s| - 1 && s[i] == '$' && s[i + 1] == '{';
      assert p[i - 1] == '$' && p[i - 1 + 1] == '{';
    }
  }

  lemma UnitsKept(units: seq<Unit>, f: Expansion)
    requires ValidUnits(units)
    ensures var r := ExpandUnits(units, f); r.Some? ==> ValidUnits(r.value) && StringsExpanded([units], [r.value], f)
  {
    ReferenceInside(units);
    if f(Unescape(units)).Some? {
      QuoteUnitsMean(f(Unescape(units)).value);
    }
  }

  lemma StringsJoin(a: seq<seq<Unit>>, b: seq<seq<Unit>>, a': seq<seq<Unit>>, b': seq<seq<Unit>>, f: Expansion)
    requires StringsExpanded(a, a', f) && StringsExpanded(b, b', f)
    ensures StringsExpanded(a + b, a' + b', f)
  {
    forall k | 0 <= k < |a + b|
      ensures if HasReference(PrintUnits((a + b)[k], "")) then f(Unescape((a + b)[k])) == Some(Unescape((a' + b')[k]))
        else (a' + b')[k] == (a + b)[k]
    {
      if k < |a| {
        assert (a + b)[k] == a[k] && (a' + b')[k] == a'[k];
      } else {
        assert (a + b)[k] == b[k - |a|] && (a' + b')[k] == b'[k - |a|];
      }
    }
  }

  /** Expanding keeps a value's structure, numbers and white space, and its other strings. */
  lemma {:induction false} ExpandedKeeps(c: Cst, f: Expansion)
    requires Valid(c)
    ensures var r := Expanded(c, f);
            r.Some? ==>
              Valid(r.value) && Skeleton(r.value) == Skeleton(c) && StringsExpanded(Strings(c), Strings(r.value), f)
    decreases c, 0
  {
    match c
    case Str(units) => UnitsKept(units, f);
    case Arr(items, _) => ItemsKept(items, f);
    case Obj(members, _) => MembersKept(members, f);
    case _ =>
  }

  lemma {:induction false} ItemKept(i: Item, f: Expansion)
    requires ValidItem(i)
    ensures var r := ExpandedItem(i, f);
            r.Some? ==> ValidItem(r.value) && SkeletonItem(r.value) == SkeletonItem(i)
                        && StringsExpanded(Strings(i.value), Strings(r.value.value), f)
    decreases i, 1
  {
    ExpandedKeeps(i.value, f);
  }

  lemma {:induction false} ItemsKept(items: seq<Item>, f: Expansion)
    requires forall i <- items :: ValidItem(i)
    ensures var r := ExpandedItems(items, f);
            r.Some? ==> (forall i <- r.value :: ValidItem(i)) && ItemSkeletons(r.value) == ItemSkeletons(items)
                        && StringsExpanded(ItemStrings(items), ItemStrings(r.value), f)
    decreases items, 2
  {
    if items != [] {
      ItemKept(items[0], f);
      ItemsKept(items[1..], f);
      var first, more := ExpandedItem(items[0], f), ExpandedItems(items[1..], f);
      if first.Some? && more.Some? {
        Cons(first.value, more.value);
        StringsJoin(Strings(items[0].value), ItemStrings(items[1..]),
                    Strings(first.value.value), ItemStrings(more.value), f);
      }
    }
  }

  lemma {:induction false} MemberKept(m: Member, f: Expansion)
    requires ValidMember(m)
    ensures var r := ExpandedMember(m, f);
            r.Some? ==> ValidMember(r.value) && r.value.before == m.before && r.value.colon == m.colon
                        && SkeletonItem(r.value.item) == SkeletonItem(m.item)
                        && StringsExpanded([m.name] + Strings(m.item.value),
                                           [r.value.name] + Strings(r.value.item.value), f)
    decreases m, 1
  {
    UnitsKept(m.name, f);
    ItemKept(m.item, f);
    var name, item := ExpandUnits(m.name, f), ExpandedItem(m.item, f);
    if name.Some? && item.Some? {
      StringsJoin([m.name], Strings(m.item.value), [name.value], Strings(item.value.value), f);
    }
  }

  lemma {:induction false} MembersKept(members: seq<Member>, f: Expansion)
    requires forall m <- members :: ValidMember(m)
    ensures var r := ExpandedMembers(members, f);
            r.Some? ==> (forall m <- r.value :: ValidMember(m)) && MemberSkeletons(r.value) == MemberSkeletons(members)
                        && StringsExpanded(MemberStrings(members), MemberStrings(r.value), f)
    decreases members, 2
  {
    if members != [] {
      MemberKept(members[0], f);
      MembersKept(members[1..], f);
      var first, more := ExpandedMember(members[0], f), ExpandedMembers(members[1..], f);
      if first.Some? && more.Some? {
        Cons(first.value, more.value);
        StringsJoin([members[0].name] + Strings(members[0].item.value), MemberStrings(members[1..]),
                    [first.value.name] + Strings(first.value.item.value), MemberStrings(more.value), f);
      }
    }
  }

  // ---------------------------------------------------------------- the code

  /** What Expand promises of a JSON text i it made r of. */
  ghost predicate Expands(i: Item, r: Option<string>, f: Expansion) {
    var e := ExpandedItem(i, f);
    && (r == None <==> e == None)
    && (e.Some? ==>
          && ReadText(r.value) == Some(e.value)
          && ValidItem(e.value)
          && SkeletonItem(e.value) == SkeletonItem(i)
          && StringsExpanded(Strings(i.value), Strings(e.value.value), f))
  }

  lemma TextExpands(s: string, i: Item, f: Expansion)
    requires ReadText(s) == Some(i)
    ensures Closed(s) && Expands(i, ExpandText(s, f), f)
  {
    TextReads(s, i);
    ItemText(i, "", f);
    ItemKept(i, f);
    var e := ExpandedItem(i, f);
    if e.Some? {
      TextReads(PrintItem(e.value, ""), e.value);
    }
  }

  method IndexByte(s: string, c: char) returns (n: int)
    ensures -1 <= n < |s|
    ensures n >= 0 ==> s[n] == c && c !in s[..n]
    ensures n < 0 ==> c !in s
  {
    for i := 0 to |s|
      invariant c !in s[..i]
    {
      if s[i] == c {
        return i;
      }
      assert s[..i + 1] == s[..i] + [s[i]];
    }
    assert s[..|s|] == s;
    return -1;
  }

  lemma {:induction false} SkipPlain(s: string, n: nat, f: Expansion)
    requires n <= |s| && '"' !in s[..n] && Closed(s)
    ensures Closed(s[n..]) && ExpandText(s, f) == Join(Some(s[..n]), ExpandText(s[n..], f))
  {
    ClosedTail(s, n);
    assert s == s[..n] + s[n..];
    PlainText(s[..n], s[n..], f);
  }

  lemma {:induction false} ClosedTail(s: string, n: nat)
    requires n <= |s| && '"' !in s[..n] && Closed(s)
    ensures Closed(s[n..])
  {
    if n == 0 {
      assert s[0..] == s;
    } else {
      assert s[0] in s[..n];
      assert forall c <- s[1..][..n - 1] :: c in s[..n];
      ClosedTail(s[1..], n - 1);
      assert s[1..][n - 1..] == s[n..];
    }
  }

  /** The index of the quote that closes the string whose opening quote is at start. */
  method ClosingQuote(rest: string, start: nat) returns (end: nat)
    requires start < |rest| && rest[start] == '"' && Literal(rest[start + 1..]).Read?
    ensures start < end < |rest| && Literal(rest[start + 1..]) == Read(rest[start + 1..end + 1], rest[end + 1..])
  {
    ghost var lit := Literal(rest[start + 1..]);
    end := start + 1;
    while rest[end] != '"'
      invariant start < end < |rest|
      invariant Literal(rest[end..]).Read? && Literal(rest[end..]).rest == lit.rest
      decreases |rest| - end
    {
      ghost var was := rest[end..];
      if rest[end] == '\\' {
        end := end + 1;
      }
      end := end + 1;
      assert was[if was[0] == '\\' then 2 else 1..] == rest[end..];
    }
    assert rest[end..][1..] == rest[end + 1..];
    assert |lit.value| == end - start;
    assert rest[start + 1..][..end - start] == rest[start + 1..end + 1];
  }

  method ExpandString(str: string, expand: Expansion) returns (r: Option<string>)
    ensures r == ExpandLiteral(str, expand)
  {
    if !HasReference(str) {
      return Some(str);
    }
    var s := Unquote(str);
    if s == None {
      return None;
    }
    var t := expand(s.value);
    return if t == None then None else Some(Quote(t.value));
  }

  lemma QuotedTurn(s: string, lit: string, left: string, f: Expansion)
    requires Closed(s) && s != "" && s[0] == '"' && Literal(s[1..]) == Read(lit, left)
    ensures Closed(left) && ExpandText(s, f) == Join(ExpandLiteral(['"'] + lit, f), ExpandText(left, f))
  {
  }

  /** One turn of the loop: the text before a string, the string, and the rest. */
  lemma TurnExpands(b: string, rest: string, start: nat, end: nat, f: Expansion)
    requires Closed(rest) && start < end < |rest| && rest[start] == '"' && '"' !in rest[..start]
    requires Literal(rest[start + 1..]) == Read(rest[start + 1..end + 1], rest[end + 1..])
    ensures Closed(rest[end + 1..])
    ensures Join(Some(b), ExpandText(rest, f))
         == Join(Join(Some(b + rest[..start]), ExpandLiteral(rest[start..end + 1], f)), ExpandText(rest[end + 1..], f))
  {
    SkipPlain(rest, start, f);
    var s, lit, left := rest[start..], rest[start + 1..end + 1], rest[end + 1..];
    FromStart(rest, start, end);
    QuotedTurn(s, lit, left, f);
    JoinTurn(b, rest[..start], ExpandLiteral(['"'] + lit, f), ExpandText(left, f));
  }

  lemma FromStart(s: string, start: nat, end: nat)
    requires start < end < |s|
    ensures s[start..][0] == s[start] && s[start..][1..] == s[start + 1..]
    ensures s[start..end + 1] == [s[start]] + s[start + 1..end + 1]
  {}

  lemma JoinTurn(b: string, before: string, lit: Option<string>, left: Option<string>)
    ensures Join(Some(b), Join(Some(before), Join(lit, left))) == Join(Join(Some(b + before), lit), left)
  {
    JoinAssoc(Some(b), Some(before), Join(lit, left));
    JoinAssoc(Some(b + before), lit, left);
  }

  /**
   v.json with its references expanded, or None when expand fails. The value's JSON is valid, or
   empty, which is what undefined has; no index is ever out of range.
   */
  method Expand(json: string, expand: Expansion) returns (r: Option<string>)
    requires json == "" || ReadText(json).Some?
    ensures json == "" ==> r == Some("")
    ensures json != "" ==> Expands(ReadText(json).value, r, expand)
  {
    if json != "" {
      TextExpands(json, ReadText(json).value, expand);
    }
    r := ExpandAll(json, expand);
  }

  method ExpandAll(json: string, expand: Expansion) returns (r: Option<string>)
    requires Closed(json)
    ensures r == ExpandText(json, expand)
  {
    var b, rest := "", json;
    ghost var goal := ExpandText(json, expand);
    assert goal.Some? ==> "" + goal.value == goal.value;
    while true
      invariant Closed(rest) && Join(Some(b), ExpandText(rest, expand)) == goal
      decreases |rest|
    {
      var start := IndexByte(rest, '"');
      if start < 0 {
        assert rest[..|rest|] == rest && rest[|rest|..] == "";
        SkipPlain(rest, |rest|, expand);
        assert rest + "" == rest;
        return Some(b + rest);
      }
      SkipPlain(rest, start, expand);
      assert rest[start..][1..] == rest[start + 1..];
      var end := ClosingQuote(rest, start);
      TurnExpands(b, rest, start, end, expand);
      var str := ExpandString(rest[start..end + 1], expand);
      if str == None {
        return None;
      }
      b := b + rest[..start] + str.value;
      rest := rest[end + 1..];
    }
  }
}
