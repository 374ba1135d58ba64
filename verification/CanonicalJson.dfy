/**
 The canonical JSON writer of internal/fixtures/canonical.go, and the compact one. Both write into a
 builder. The tree they write has strings of Unicode scalar values and numbers as JSON writes them.
 */
module CanonicalJson {
  import opened Wrappers
  import opened Numbers
  import opened Sequences
  import opened Json

  /** A tree the writer takes: its numbers are finite, so their text is a JSON number. */
  predicate Finite(v: Value) {
    match v
    case VNumber(t) => ReadNumber(t).Read? && ReadNumber(t).rest == ""
    case VList(items) => forall x <- items :: Finite(x)
    case VObject(members) => forall m <- members :: Finite(m.1)
    case _ => true
  }

  function Units(s: string): seq<Unit> {
    if s == "" then [] else [UnitOf(s[0])] + Units(s[1..])
  }

  function HexChar(n: nat): char
    requires n < 16
  {
    "0123456789ABCDEF"[n]
  }

  /** How the writer writes a character of a string. */
  function UnitOf(c: char): Unit {
    if c == '"' || c == '\\' then Escape(c)
    else if c == '\U{0008}' then Escape('b')
    else if c == '\t' then Escape('t')
    else if c == '\n' then Escape('n')
    else if c == '\U{000C}' then Escape('f')
    else if c == '\r' then Escape('r')
    else if c < ' ' then Hex(['0', '0', HexChar(c as int / 16), HexChar(c as int % 16)])
    else Plain(c)
  }

  function Indentation(level: nat): string {
    if level == 0 then "" else "  " + Indentation(level - 1)
  }

  function Indent(level: nat): string {
    "\n" + Indentation(level)
  }

  /** The layout of the canonical form of v, nested level deep. */
  function Layout(v: Value, level: nat): Cst
    decreases v, 0
  {
    match v
    case VNull => Word("null")
    case VBool(b) => Word(if b then "true" else "false")
    case VNumber(t) => if ReadNumber(t).Read? then ReadNumber(t).value else Word("null")
    case VString(s) => Str(Units(s))
    case VList(items) => Arr(LayoutItems(items, level), "")
    case VObject(members) => Obj(LayoutMembers(members, level), "")
  }

  function LayoutItem(v: Value, level: nat, last: bool): Item
    decreases v, 1
  {
    Item(Indent(level + 1), Layout(v, level + 1), if last then Indent(level) else "")
  }

  function LayoutItems(items: seq<Value>, level: nat): (r: seq<Item>)
    ensures |r| == |items|
    decreases items, 2
  {
    if items == [] then []
    else [LayoutItem(items[0], level, |items| == 1)] + LayoutItems(items[1..], level)
  }

  function LayoutMember(m: (string, Value), level: nat, last: bool): Member
    decreases m, 1
  {
    Member(Indent(level + 1), Units(m.0), "", Item(" ", Layout(m.1, level + 1), if last then Indent(level) else ""))
  }

  function LayoutMembers(members: seq<(string, Value)>, level: nat): (r: seq<Member>)
    ensures |r| == |members|
    decreases members, 2
  {
    if members == [] then []
    else [LayoutMember(members[0], level, |members| == 1)] + LayoutMembers(members[1..], level)
  }

  // ------------------------------------------------ canonical text reads back

  lemma UnitMeans(c: char, more: seq<Unit>)
    ensures ValidUnit(UnitOf(c)) && Unescape([UnitOf(c)] + more) == [c] + Unescape(more)
  {
    Cons(UnitOf(c), more);
    if UnitOf(c).Hex? {
      HexMeans(c);
    }
  }

  lemma HexMeans(c: char)
    requires c < ' '
    ensures var d := ['0', '0', HexChar(c as int / 16), HexChar(c as int % 16)];
            HexCode(d) == c as int && forall h <- d :: IsHex(h)
  {
    HexCharMeans(c as int / 16);
    HexCharMeans(c as int % 16);
  }

  lemma HexCharMeans(n: nat)
    requires n < 16
    ensures IsHex(HexChar(n)) && HexValue(HexChar(n)) == n
  {}

  lemma {:induction false} UnitsMean(s: string)
    ensures ValidUnits(Units(s)) && Unescape(Units(s)) == s
  {
    if s != "" {
      UnitsMean(s[1..]);
      UnitMeans(s[0], Units(s[1..]));
      Uncons(s);
    }
  }

  lemma {:induction false} IndentIsSpace(level: nat)
    ensures AllSpace(Indent(level))
  {
    if level > 0 {
      IndentIsSpace(level - 1);
      assert Indent(level) == "\n  " + Indent(level - 1)[1..];
    }
  }

  lemma {:induction false} LayoutMeans(v: Value, level: nat)
    requires Finite(v)
    ensures Valid(Layout(v, level)) && Denotes(Layout(v, level)) == v
    decreases v, 0
  {
    match v
    case VNumber(t) =>
      NumberSound(t);
    case VString(s) => UnitsMean(s);
    case VList(items) => ItemsMean(items, level);
    case VObject(members) => MembersMean(members, level);
    case _ =>
  }

  lemma {:induction false} ItemsMean(items: seq<Value>, level: nat)
    requires forall x <- items :: Finite(x)
    ensures var r := LayoutItems(items, level); (forall i <- r :: ValidItem(i)) && ItemValues(r) == items
    decreases items, 2
  {
    if items != [] {
      LayoutMeans(items[0], level + 1);
      ItemsMean(items[1..], level);
      IndentIsSpace(level);
      IndentIsSpace(level + 1);
      Cons(LayoutItem(items[0], level, |items| == 1), LayoutItems(items[1..], level));
      Uncons(items);
    }
  }

  lemma {:induction false} MembersMean(members: seq<(string, Value)>, level: nat)
    requires forall m <- members :: Finite(m.1)
    ensures var r := LayoutMembers(members, level); (forall m <- r :: ValidMember(m)) && MemberValues(r) == members
    decreases members, 2
  {
    if members != [] {
      MemberMeans(members[0], level, |members| == 1);
      MembersMean(members[1..], level);
      Cons(LayoutMember(members[0], level, |members| == 1), LayoutMembers(members[1..], level));
      Uncons(members);
    }
  }

  lemma {:induction false} MemberMeans(m: (string, Value), level: nat, last: bool)
    requires Finite(m.1)
    ensures var r := LayoutMember(m, level, last);
            ValidMember(r) && (Unescape(r.name), Denotes(r.item.value)) == m
    decreases m, 1
  {
    LayoutMeans(m.1, level + 1);
    UnitsMean(m.0);
    IndentIsSpace(level);
    IndentIsSpace(level + 1);
  }

  /** The canonical text of v: its layout and one line feed. */
  function Canonical(v: Value): string {
    Print(Layout(v, 0), "\n")
  }

  /** A JSON reader finds v in its canonical text: member order, number text and all. */
  lemma CanonicalReads(v: Value)
    requires Finite(v)
    ensures var r := ReadText(Canonical(v)); r.Some? && ValidItem(r.value) && Denotes(r.value.value) == v
  {
    LayoutMeans(v, 0);
    LineReads(Layout(v, 0));
  }

  lemma LineReads(c: Cst)
    requires Valid(c)
    ensures ReadText(Print(c, "\n")) == Some(Item("", c, "\n")) && ValidItem(Item("", c, "\n"))
  {
    var i := Item("", c, "\n");
    assert PrintItem(i, "") == Print(c, "\n") by {
      assert "\n" + "" == "\n";
      assert "" + Print(c, "\n") == Print(c, "\n");
    }
    TextReads(Print(c, "\n"), i);
  }

  /** So the bytes determine the tree. */
  lemma CanonicalDetermines(v: Value, w: Value)
    requires Finite(v) && Finite(w)
    ensures Canonical(v) == Canonical(w) <==> v == w
  {
    CanonicalReads(v);
    CanonicalReads(w);
  }

  // ------------------------------------------------------------ compact text

  /** A text without the white space outside its strings. */
  function Strip(s: string): string
    decreases |s|
  {
    if s == "" then ""
    else if IsSpace(s[0]) then Strip(s[1..])
    else if s[0] == '"' then
      var lit := Literal(s[1..]);
      if lit.Bad? then s else ['"'] + (lit.value + Strip(lit.rest))
    else [s[0]] + Strip(s[1..])
  }

  function Bare(c: Cst): Cst
    decreases c, 0
  {
    match c
    case Arr(items, _) => Arr(BareItems(items), "")
    case Obj(members, _) => Obj(BareMembers(members), "")
    case _ => c
  }

  function BareItems(items: seq<Item>): (r: seq<Item>)
    ensures |r| == |items|
    decreases items, 2
  {
    if items == [] then [] else [Item("", Bare(items[0].value), "")] + BareItems(items[1..])
  }

  function BareMembers(members: seq<Member>): (r: seq<Member>)
    ensures |r| == |members|
    decreases members, 2
  {
    if members == [] then []
    else [Member("", members[0].name, "", Item("", Bare(members[0].item.value), ""))] + BareMembers(members[1..])
  }

  function Compact(v: Value): string {
    Print(Bare(Layout(v, 0)), "")
  }

  lemma {:induction false} StripSpaces(ws: string, rest: string)
    requires AllSpace(ws)
    ensures Strip(ws + rest) == Strip(rest)
  {
    if ws == "" {
      assert ws + rest == rest;
    } else {
      assert (ws + rest)[1..] == ws[1..] + rest;
      StripSpaces(ws[1..], rest);
    }
  }

  lemma {:induction false} StripPlain(t: string, rest: string)
    requires forall c <- t :: !IsSpace(c) && c != '"'
    ensures Strip(t + rest) == t + Strip(rest)
  {
    if t == "" {
      assert t + rest == rest;
    } else {
      assert (t + rest)[1..] == t[1..] + rest;
      StripPlain(t[1..], rest);
      Uncons(t);
    }
  }

  lemma StripString(units: seq<Unit>, rest: string)
    requires ValidUnits(units)
    ensures Strip(['"'] + PrintUnits(units, rest)) == ['"'] + PrintUnits(units, Strip(rest))
  {
    Cons('"', PrintUnits(units, rest));
    LiteralOfUnits(units, rest);
    UnitsThen(units, "", Strip(rest));
    assert "" + Strip(rest) == Strip(rest);
  }

  lemma StripNumber(c: Cst, rest: string)
    requires c.Number? && Valid(c)
    ensures Strip(Print(c, rest)) == Print(c, Strip(rest))
  {
    ExponentPlain(c.exponent);
    assert c.fraction == "" || c.fraction == ['.'] + c.fraction[1..];
    StripPlain(c.exponent, rest);
    StripPlain(c.fraction, c.exponent + rest);
    StripPlain(c.whole, c.fraction + (c.exponent + rest));
    StripPlain(if c.minus then "-" else "", c.whole + (c.fraction + (c.exponent + rest)));
  }

  /** Taking the white space out of any JSON text leaves the same value without white space. */
  lemma {:induction false} StripPrint(c: Cst, rest: string)
    requires Valid(c)
    ensures Strip(Print(c, rest)) == Print(Bare(c), Strip(rest))
    decreases c, 0
  {
    match c
    case Word(t) => StripPlain(t, rest);
    case Number(_, _, _, _) => StripNumber(c, rest);
    case Str(units) => StripString(units, rest);
    case Arr(items, gap) =>
      StripPlain("[", gap + PrintItems(items, [']'] + rest));
      StripSpaces(gap, PrintItems(items, [']'] + rest));
      StripItems(items, [']'] + rest);
      StripPlain("]", rest);
      var bare := PrintItems(BareItems(items), [']'] + Strip(rest));
      assert "" + bare == bare;
    case Obj(members, gap) =>
      StripPlain("{", gap + PrintMembers(members, ['}'] + rest));
      StripSpaces(gap, PrintMembers(members, ['}'] + rest));
      StripMembers(members, ['}'] + rest);
      StripPlain("}", rest);
      var bare := PrintMembers(BareMembers(members), ['}'] + Strip(rest));
      assert "" + bare == bare;
  }

  lemma {:induction false} StripItem(i: Item, rest: string)
    requires ValidItem(i)
    ensures Strip(PrintItem(i, rest)) == PrintItem(Item("", Bare(i.value), ""), Strip(rest))
    decreases i, 1
  {
    StripSpaces(i.before, Print(i.value, i.after + rest));
    StripPrint(i.value, i.after + rest);
    StripSpaces(i.after, rest);
    assert "" + Strip(rest) == Strip(rest);
    assert "" + Print(Bare(i.value), Strip(rest)) == Print(Bare(i.value), Strip(rest));
  }

  lemma {:induction false} StripItems(items: seq<Item>, rest: string)
    requires forall i <- items :: ValidItem(i)
    ensures Strip(PrintItems(items, rest)) == PrintItems(BareItems(items), Strip(rest))
    decreases items, 2
  {
    if |items| == 1 {
      StripItem(items[0], rest);
    } else if items != [] {
      StripItem(items[0], [','] + PrintItems(items[1..], rest));
      StripPlain(",", PrintItems(items[1..], rest));
      StripItems(items[1..], rest);
      Cons(Item("", Bare(items[0].value), ""), BareItems(items[1..]));
    }
  }

  lemma {:induction false} StripMember(m: Member, rest: string)
    requires ValidMember(m)
    ensures Strip(PrintMember(m, rest))
         == PrintMember(Member("", m.name, "", Item("", Bare(m.item.value), "")), Strip(rest))
    decreases m, 1
  {
    var value := [':'] + PrintItem(m.item, rest);
    StripSpaces(m.before, ['"'] + PrintUnits(m.name, m.colon + value));
    StripString(m.name, m.colon + value);
    StripSpaces(m.colon, value);
    StripPlain(":", PrintItem(m.item, rest));
    StripItem(m.item, rest);
    var bare := [':'] + PrintItem(Item("", Bare(m.item.value), ""), Strip(rest));
    assert "" + bare == bare;
    assert "" + (['"'] + PrintUnits(m.name, bare)) == ['"'] + PrintUnits(m.name, bare);
  }

  lemma {:induction false} StripMembers(members: seq<Member>, rest: string)
    requires forall m <- members :: ValidMember(m)
    ensures Strip(PrintMembers(members, rest)) == PrintMembers(BareMembers(members), Strip(rest))
    decreases members, 2
  {
    if |members| == 1 {
      StripMember(members[0], rest);
    } else if members != [] {
      StripMember(members[0], [','] + PrintMembers(members[1..], rest));
      StripPlain(",", PrintMembers(members[1..], rest));
      StripMembers(members[1..], rest);
      Cons(Member("", members[0].name, "", Item("", Bare(members[0].item.value), "")), BareMembers(members[1..]));
    }
  }

  /** The compact text is the canonical one without its white space. */
  lemma CompactIsStripped(v: Value)
    requires Finite(v)
    ensures Strip(Canonical(v)) == Compact(v)
  {
    LayoutMeans(v, 0);
    StripPrint(Layout(v, 0), "\n");
    assert Strip("\n") == "";
  }

  // ------------------------------------------------------------- the writers

  class Builder {
    var text: string

    constructor ()
      ensures text == ""
    {
      text := "";
    }

    method WriteString(s: string)
      modifies this
      ensures text == old(text) + s
    {
      text := text + s;
    }
  }

  method WriteIndent(b: Builder, level: nat)
    modifies b
    ensures b.text == old(b.text) + Indent(level)
  {
    b.WriteString("\n");
    for i := 0 to level
      invariant b.text + Indentation(level - i) == old(b.text) + Indent(level)
    {
      Assoc(b.text, "  ", Indentation(level - i - 1));
      b.WriteString("  ");
    }
    assert b.text + "" == b.text;
  }

  /** The string literal of s, as the units the writer gives its characters. */
  method WriteJSONString(b: Builder, s: string)
    modifies b
    ensures b.text == old(b.text) + Print(Str(Units(s)), "")
  {
    b.WriteString(['"']);
    Assoc(old(b.text), ['"'], PrintUnits(Units(s), ""));
    assert s[0..] == s;
    for i := 0 to |s|
      invariant b.text + PrintUnits(Units(s[i..]), "") == old(b.text) + Print(Str(Units(s)), "")
    {
      var c := s[i];
      assert s[i..][0] == c && s[i..][1..] == s[i + 1..];
      Cons(UnitOf(c), Units(s[i + 1..]));
      Assoc(b.text, PrintUnit(UnitOf(c)), PrintUnits(Units(s[i + 1..]), ""));
      match c {
        case '"' => b.WriteString("\\\"");
        case '\\' => b.WriteString("\\\\");
        case '\U{0008}' => b.WriteString("\\b");
        case '\t' => b.WriteString("\\t");
        case '\n' => b.WriteString("\\n");
        case '\U{000C}' => b.WriteString("\\f");
        case '\r' => b.WriteString("\\r");
        case _ =>
          if c < ' ' {
            b.WriteString("\\u" + ['0', '0', HexChar(c as int / 16), HexChar(c as int % 16)]);
          } else {
            b.WriteString([c]);
          }
      }
    }
    b.WriteString(['"']);
    assert ['"'] + "" == ['"'];
  }

  /** What is left to write of a list's items from the ith on, and its bracket. */
  function ItemsLeft(items: seq<Value>, level: nat, i: nat): string
    requires i <= |items|
  {
    if i == |items| then Indent(level) + "]"
    else (if i > 0 then "," else "") + PrintItems(LayoutItems(items[i..], level), "]")
  }

  lemma ItemsLeftStep(items: seq<Value>, level: nat, i: nat)
    requires i < |items|
    ensures ItemsLeft(items, level, i)
         == (if i > 0 then "," else "")
            + (Indent(level + 1) + (Print(Layout(items[i], level + 1), "") + ItemsLeft(items, level, i + 1)))
  {
    var c, left := Layout(items[i], level + 1), ItemsLeft(items, level, i + 1);
    var more := LayoutItems(items[i + 1..], level);
    var it := LayoutItem(items[i], level, i + 1 == |items|);
    assert items[i..][0] == items[i] && items[i..][1..] == items[i + 1..];
    Cons(it, more);
    assert LayoutItems(items[i..], level) == [it] + more;
    assert PrintItems([it] + more, "]") == Indent(level + 1) + Print(c, left) by {
      if i + 1 == |items| {
        assert PrintItems([it] + more, "]") == PrintItem(it, "]");
      } else {
        assert "" + left == left;
        assert PrintItems([it] + more, "]") == PrintItem(it, left);
      }
    }
    PrintThen(c, "", left);
    assert "" + left == left;
  }

  function MembersLeft(members: seq<(string, Value)>, level: nat, i: nat): string
    requires i <= |members|
  {
    if i == |members| then Indent(level) + "}"
    else (if i > 0 then "," else "") + PrintMembers(LayoutMembers(members[i..], level), "}")
  }

  function MemberText(m: (string, Value), level: nat): string {
    Print(Str(Units(m.0)), "") + (": " + Print(Layout(m.1, level), ""))
  }

  lemma MembersLeftStep(members: seq<(string, Value)>, level: nat, i: nat)
    requires i < |members|
    ensures MembersLeft(members, level, i)
         == (if i > 0 then "," else "")
            + (Indent(level + 1) + (MemberText(members[i], level + 1) + MembersLeft(members, level, i + 1)))
  {
    var left := MembersLeft(members, level, i + 1);
    var m, more := LayoutMember(members[i], level, i + 1 == |members|), LayoutMembers(members[i + 1..], level);
    assert members[i..][0] == members[i] && members[i..][1..] == members[i + 1..];
    Cons(m, more);
    assert LayoutMembers(members[i..], level) == [m] + more;
    if i + 1 == |members| {
      MemberPrints(members[i], level, true, "}");
    } else {
      MemberPrints(members[i], level, false, left);
      assert "" + left == left;
    }
  }

  lemma MemberPrints(m: (string, Value), level: nat, last: bool, rest: string)
    ensures PrintMember(LayoutMember(m, level, last), rest)
         == Indent(level + 1) + (MemberText(m, level + 1) + ((if last then Indent(level) else "") + rest))
  {
    var end := if last then Indent(level) else "";
    SpacedMember(Indent(level + 1), Units(m.0), Layout(m.1, level + 1), end, rest);
    MemberSplits(m, level + 1, end + rest);
  }

  lemma SpacedMember(before: string, name: seq<Unit>, c: Cst, after: string, rest: string)
    ensures PrintMember(Member(before, name, "", Item(" ", c, after)), rest)
         == before + Print(Str(name), ": " + Print(c, after + rest))
  {
    var value := " " + Print(c, after + rest);
    assert "" + ([':'] + value) == ": " + Print(c, after + rest);
  }

  lemma MemberSplits(m: (string, Value), level: nat, left: string)
    ensures Print(Str(Units(m.0)), ": " + Print(Layout(m.1, level), left)) == MemberText(m, level) + left
  {
    var name, c := Str(Units(m.0)), Layout(m.1, level);
    PrintThen(c, "", left);
    assert "" + left == left;
    Assoc(": ", Print(c, ""), left);
    var value := ": " + Print(c, left);
    PrintThen(name, "", value);
    assert "" + value == value;
    Assoc(Print(name, ""), ": " + Print(c, ""), left);
  }

  method WriteJSON(b: Builder, v: Value, level: nat)
    requires Finite(v)
    modifies b
    ensures b.text == old(b.text) + Print(Layout(v, level), "")
    decreases v
  {
    match v
    case VNull => b.WriteString("null");
    case VBool(x) => b.WriteString(if x then "true" else "false");
    case VNumber(t) =>
      NumberSound(t);
      b.WriteString(t);
    case VString(s) => WriteJSONString(b, s);
    case VList(items) => WriteList(b, items, level);
    case VObject(members) => WriteObject(b, members, level);
  }

  method WriteList(b: Builder, items: seq<Value>, level: nat)
    requires forall x <- items :: Finite(x)
    modifies b
    ensures b.text == old(b.text) + Print(Layout(VList(items), level), "")
    decreases items
  {
    b.WriteString("[");
    if |items| == 0 {
      b.WriteString("]");
      assert b.text == old(b.text) + ("[" + ("" + ("]" + "")));
      return;
    }
    ghost var goal := old(b.text) + Print(Layout(VList(items), level), "");
    ListOpens(items, level);
    for i := 0 to |items|
      invariant b.text + ItemsLeft(items, level, i) == goal
    {
      ItemsTurn(b.text, items, level, i);
      WriteComma(b, i > 0);
      WriteIndent(b, level + 1);
      WriteJSON(b, items[i], level + 1);
    }
    Assoc(b.text, Indent(level), "]");
    WriteIndent(b, level);
    b.WriteString("]");
  }

  /** The comma before an item or a member, but the first. */
  method WriteComma(b: Builder, comma: bool)
    modifies b
    ensures b.text == old(b.text) + if comma then "," else ""
  {
    if comma {
      b.WriteString(",");
    }
  }

  lemma Chain(a: string, b: string, c: string, d: string)
    ensures a + (b + (c + d)) == a + b + c + d
  {}

  lemma ItemsTurn(was: string, items: seq<Value>, level: nat, i: nat)
    requires i < |items|
    ensures var comma, item := if i > 0 then "," else "", Print(Layout(items[i], level + 1), "");
      was + ItemsLeft(items, level, i) == was + comma + Indent(level + 1) + item + ItemsLeft(items, level, i + 1)
  {
    var comma, item := if i > 0 then "," else "", Print(Layout(items[i], level + 1), "");
    ItemsLeftStep(items, level, i);
    Five(was, comma, Indent(level + 1), item, ItemsLeft(items, level, i + 1));
  }

  lemma ListOpens(items: seq<Value>, level: nat)
    requires items != []
    ensures Print(Layout(VList(items), level), "") == "[" + ItemsLeft(items, level, 0)
  {
    assert items[0..] == items && [']'] + "" == "]";
    var p := PrintItems(LayoutItems(items, level), "]");
    assert "" + p == p;
  }

  lemma ObjectOpens(members: seq<(string, Value)>, level: nat)
    requires members != []
    ensures Print(Layout(VObject(members), level), "") == "{" + MembersLeft(members, level, 0)
  {
    assert members[0..] == members && ['}'] + "" == "}";
    var p := PrintMembers(LayoutMembers(members, level), "}");
    assert "" + p == p;
  }

  method WriteObject(b: Builder, members: seq<(string, Value)>, level: nat)
    requires forall m <- members :: Finite(m.1)
    modifies b
    ensures b.text == old(b.text) + Print(Layout(VObject(members), level), "")
    decreases members, 1
  {
    b.WriteString("{");
    if |members| == 0 {
      b.WriteString("}");
      assert b.text == old(b.text) + ("{" + ("" + ("}" + "")));
      return;
    }
    ghost var goal := old(b.text) + Print(Layout(VObject(members), level), "");
    ObjectOpens(members, level);
    WriteMembers(b, members, level, goal);
  }

  method WriteMembers(b: Builder, members: seq<(string, Value)>, level: nat, ghost goal: string)
    requires forall m <- members :: Finite(m.1)
    requires b.text + MembersLeft(members, level, 0) == goal
    modifies b
    ensures b.text == goal
    decreases members, 0
  {
    for i := 0 to |members|
      invariant b.text + MembersLeft(members, level, i) == goal
    {
      MembersTurn(b.text, members, level, i);
      WriteLine(b, i > 0, members[i], level + 1);
    }
    Assoc(b.text, Indent(level), "}");
    WriteIndent(b, level);
    b.WriteString("}");
  }

  /** A member on its line, after the comma of the one before it. */
  method WriteLine(b: Builder, after: bool, m: (string, Value), level: nat)
    requires Finite(m.1)
    modifies b
    ensures b.text == old(b.text) + (if after then "," else "") + Indent(level) + MemberText(m, level)
    decreases m, 1
  {
    WriteComma(b, after);
    WriteIndent(b, level);
    WriteMember(b, m, level);
  }

  lemma MembersTurn(was: string, members: seq<(string, Value)>, level: nat, i: nat)
    requires i < |members|
    ensures var comma := if i > 0 then "," else "";
      was + MembersLeft(members, level, i)
      == was + comma + Indent(level + 1) + MemberText(members[i], level + 1) + MembersLeft(members, level, i + 1)
  {
    var comma := if i > 0 then "," else "";
    MembersLeftStep(members, level, i);
    Five(was, comma, Indent(level + 1), MemberText(members[i], level + 1), MembersLeft(members, level, i + 1));
  }

  lemma Five(a: string, b: string, c: string, d: string, e: string)
    ensures a + (b + (c + (d + e))) == a + b + c + d + e
  {}

  method WriteMember(b: Builder, m: (string, Value), level: nat)
    requires Finite(m.1)
    modifies b
    ensures b.text == old(b.text) + MemberText(m, level)
    decreases m, 0
  {
    ghost var was := b.text;
    WriteJSONString(b, m.0);
    b.WriteString(": ");
    WriteJSON(b, m.1, level);
    Fourth(was, Print(Str(Units(m.0)), ""), ": ", Print(Layout(m.1, level), ""));
  }

  method CanonicalJSON(v: Value) returns (text: string)
    requires Finite(v)
    ensures text == Canonical(v)
  {
    var b := new Builder();
    WriteJSON(b, v, 0);
    b.WriteString("\n");
    PrintThen(Layout(v, 0), "", "\n");
    assert "" + "\n" == "\n";
    return b.text;
  }

  // The compact writer leaves no layout behind, so how deep a value is does not show in its text.

  lemma {:induction false} BareLayout(v: Value, level: nat)
    ensures Bare(Layout(v, level)) == Bare(Layout(v, 0))
    decreases v, 0
  {
    match v
    case VList(items) => BareLayoutItems(items, level);
    case VObject(members) => BareLayoutMembers(members, level);
    case _ =>
  }

  lemma {:induction false} BareLayoutItems(items: seq<Value>, level: nat)
    ensures BareItems(LayoutItems(items, level)) == BareItems(LayoutItems(items, 0))
    decreases items, 2
  {
    if items != [] {
      BareLayout(items[0], level + 1);
      BareLayout(items[0], 1);
      BareLayoutItems(items[1..], level);
      Cons(LayoutItem(items[0], level, |items| == 1), LayoutItems(items[1..], level));
      Cons(LayoutItem(items[0], 0, |items| == 1), LayoutItems(items[1..], 0));
    }
  }

  lemma {:induction false} BareLayoutMember(m: (string, Value), level: nat)
    ensures Bare(Layout(m.1, level)) == Bare(Layout(m.1, 0))
    decreases m, 1
  {
    BareLayout(m.1, level);
  }

  lemma {:induction false} BareLayoutMembers(members: seq<(string, Value)>, level: nat)
    ensures BareMembers(LayoutMembers(members, level)) == BareMembers(LayoutMembers(members, 0))
    decreases members, 2
  {
    if members != [] {
      BareLayoutMember(members[0], level + 1);
      BareLayoutMember(members[0], 1);
      BareLayoutMembers(members[1..], level);
      Cons(LayoutMember(members[0], level, |members| == 1), LayoutMembers(members[1..], level));
      Cons(LayoutMember(members[0], 0, |members| == 1), LayoutMembers(members[1..], 0));
    }
  }

  function CompactItemsLeft(items: seq<Value>, i: nat): string
    requires i <= |items|
  {
    if i == |items| then "]"
    else (if i > 0 then "," else "") + PrintItems(BareItems(LayoutItems(items[i..], 0)), "]")
  }

  lemma CompactItemsStep(items: seq<Value>, i: nat)
    requires i < |items|
    ensures CompactItemsLeft(items, i)
         == (if i > 0 then "," else "") + (Compact(items[i]) + CompactItemsLeft(items, i + 1))
  {
    var it, more := LayoutItem(items[i], 0, i + 1 == |items|), LayoutItems(items[i + 1..], 0);
    assert items[i..][0] == items[i] && items[i..][1..] == items[i + 1..];
    Cons(it, more);
    assert LayoutItems(items[i..], 0) == [it] + more;
    Cons(Item("", Bare(it.value), ""), BareItems(more));
    BareLayout(items[i], 1);
    CompactItemPrints(items[i], CompactItemsLeft(items, i + 1));
  }

  lemma CompactItemPrints(v: Value, left: string)
    ensures PrintItem(Item("", Bare(Layout(v, 0)), ""), left) == Compact(v) + left
  {
    var c := Bare(Layout(v, 0));
    PrintThen(c, "", left);
    assert "" + left == left && "" + Print(c, left) == Print(c, left);
  }

  lemma CompactOpens(items: seq<Value>, members: seq<(string, Value)>)
    ensures Compact(VList(items)) == "[" + CompactItemsLeft(items, 0)
    ensures Compact(VObject(members)) == "{" + CompactMembersLeft(members, 0)
  {
    assert items[0..] == items && [']'] + "" == "]";
    assert members[0..] == members && ['}'] + "" == "}";
    var p := PrintItems(BareItems(LayoutItems(items, 0)), "]");
    var q := PrintMembers(BareMembers(LayoutMembers(members, 0)), "}");
    assert "" + p == p && "" + q == q;
  }

  function CompactMemberText(m: (string, Value)): string {
    Print(Str(Units(m.0)), "") + (":" + Compact(m.1))
  }

  function CompactMembersLeft(members: seq<(string, Value)>, i: nat): string
    requires i <= |members|
  {
    if i == |members| then "}"
    else (if i > 0 then "," else "") + PrintMembers(BareMembers(LayoutMembers(members[i..], 0)), "}")
  }

  lemma CompactMembersStep(members: seq<(string, Value)>, i: nat)
    requires i < |members|
    ensures CompactMembersLeft(members, i)
         == (if i > 0 then "," else "") + (CompactMemberText(members[i]) + CompactMembersLeft(members, i + 1))
  {
    var m, more := LayoutMember(members[i], 0, i + 1 == |members|), LayoutMembers(members[i + 1..], 0);
    assert members[i..][0] == members[i] && members[i..][1..] == members[i + 1..];
    Cons(m, more);
    assert LayoutMembers(members[i..], 0) == [m] + more;
    var bare := Member("", m.name, "", Item("", Bare(m.item.value), ""));
    Cons(bare, BareMembers(more));
    BareLayout(members[i].1, 1);
    CompactMemberPrints(members[i], CompactMembersLeft(members, i + 1));
  }

  lemma CompactMemberPrints(m: (string, Value), left: string)
    ensures PrintMember(Member("", Units(m.0), "", Item("", Bare(Layout(m.1, 0)), "")), left)
         == CompactMemberText(m) + left
  {
    BareMember(Units(m.0), Bare(Layout(m.1, 0)), left);
    NameThen(Str(Units(m.0)), Bare(Layout(m.1, 0)), left);
  }

  lemma BareMember(name: seq<Unit>, c: Cst, rest: string)
    ensures PrintMember(Member("", name, "", Item("", c, "")), rest) == Print(Str(name), ":" + Print(c, rest))
  {
    assert "" + rest == rest && "" + Print(c, rest) == Print(c, rest);
    assert "" + ([':'] + Print(c, rest)) == ":" + Print(c, rest);
    assert "" + Print(Str(name), ":" + Print(c, rest)) == Print(Str(name), ":" + Print(c, rest));
  }

  lemma NameThen(name: Cst, c: Cst, left: string)
    ensures Print(name, ":" + Print(c, left)) == (Print(name, "") + (":" + Print(c, ""))) + left
  {
    PrintThen(c, "", left);
    assert "" + left == left;
    Assoc(":", Print(c, ""), left);
    var value := ":" + Print(c, left);
    PrintThen(name, "", value);
    assert "" + value == value;
    Assoc(Print(name, ""), ":" + Print(c, ""), left);
  }

  lemma CompactItemsTurn(was: string, items: seq<Value>, i: nat)
    requires i < |items|
    ensures var comma := if i > 0 then "," else "";
      was + CompactItemsLeft(items, i) == was + comma + Compact(items[i]) + CompactItemsLeft(items, i + 1)
  {
    CompactItemsStep(items, i);
    Chain(was, if i > 0 then "," else "", Compact(items[i]), CompactItemsLeft(items, i + 1));
  }

  lemma CompactMembersTurn(was: string, members: seq<(string, Value)>, i: nat)
    requires i < |members|
    ensures var comma := if i > 0 then "," else "";
      was + CompactMembersLeft(members, i)
      == was + comma + CompactMemberText(members[i]) + CompactMembersLeft(members, i + 1)
  {
    CompactMembersStep(members, i);
    Chain(was, if i > 0 then "," else "", CompactMemberText(members[i]), CompactMembersLeft(members, i + 1));
  }

  method WriteCompact(b: Builder, v: Value)
    requires Finite(v)
    modifies b
    ensures b.text == old(b.text) + Compact(v)
    decreases v
  {
    match v
    case VObject(members) => WriteCompactObject(b, members);
    case VList(items) => WriteCompactList(b, items);
    case _ => WriteJSON(b, v, 0);
  }

  method WriteCompactList(b: Builder, items: seq<Value>)
    requires forall x <- items :: Finite(x)
    modifies b
    ensures b.text == old(b.text) + Compact(VList(items))
    decreases items
  {
    b.WriteString("[");
    CompactOpens(items, []);
    ghost var goal := old(b.text) + Compact(VList(items));
    for i := 0 to |items|
      invariant b.text + CompactItemsLeft(items, i) == goal
    {
      CompactItemsTurn(b.text, items, i);
      WriteComma(b, i > 0);
      WriteCompact(b, items[i]);
    }
    b.WriteString("]");
  }

  method WriteCompactObject(b: Builder, members: seq<(string, Value)>)
    requires forall m <- members :: Finite(m.1)
    modifies b
    ensures b.text == old(b.text) + Compact(VObject(members))
    decreases members
  {
    b.WriteString("{");
    CompactOpens([], members);
    ghost var goal := old(b.text) + Compact(VObject(members));
    for i := 0 to |members|
      invariant b.text + CompactMembersLeft(members, i) == goal
    {
      CompactMembersTurn(b.text, members, i);
      WriteComma(b, i > 0);
      WriteCompactMember(b, members[i]);
    }
    b.WriteString("}");
  }

  method WriteCompactMember(b: Builder, m: (string, Value))
    requires Finite(m.1)
    modifies b
    ensures b.text == old(b.text) + CompactMemberText(m)
    decreases m
  {
    ghost var was := b.text;
    WriteJSONString(b, m.0);
    b.WriteString(":");
    WriteCompact(b, m.1);
    Fourth(was, Print(Str(Units(m.0)), ""), ":", Compact(m.1));
  }

  lemma Fourth(a: string, b: string, c: string, d: string)
    ensures ((a + b) + c) + d == a + (b + (c + d))
  {}

  method CompactJSON(v: Value) returns (text: string)
    requires Finite(v)
    ensures text == Compact(v) == Strip(Canonical(v))
  {
    var b := new Builder();
    WriteCompact(b, v);
    CompactIsStripped(v);
    return b.text;
  }
}
