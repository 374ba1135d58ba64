/**
 JSON text (sections 2 to 7 of RFC 8259). A Cst is a JSON value as it is written, every character of
 it: Print is the grammar, Read a reader, and each undoes the other. Denotes is the value it stands for.
 */
module Json {
  import opened Wrappers
  import opened Numbers
  import opened Sequences

  // One character of a string as written: itself, a short escape, or \u and four hex digits.
  datatype Unit = Plain(c: char) | Escape(c: char) | Hex(digits: string)

  datatype Cst =
    | Word(text: string)
    | Number(minus: bool, whole: string, fraction: string, exponent: string)
    | Str(units: seq<Unit>)
    | Arr(items: seq<Item>, gap: string)
    | Obj(members: seq<Member>, gap: string)
  // Values with the white space around them; gap is the white space inside an empty array or object.
  datatype Item = Item(before: string, value: Cst, after: string)
  datatype Member = Member(before: string, name: seq<Unit>, colon: string, item: Item)

  datatype Value =
    | VNull
    | VBool(b: bool)
    | VNumber(text: string)
    | VString(s: string)
    | VList(items: seq<Value>)
    | VObject(members: seq<(string, Value)>)

  datatype Read<+T> = Read(value: T, rest: string) | Bad

  // ---------------------------------------------------------------- grammar

  predicate IsSpace(c: char) {
    c == ' ' || c == '\t' || c == '\n' || c == '\r'
  }

  predicate IsHex(c: char) {
    IsDigit(c) || 'a' <= c <= 'f' || 'A' <= c <= 'F'
  }

  predicate AllSpace(s: string) {
    forall c <- s :: IsSpace(c)
  }

  predicate AllDigits(s: string) {
    forall c <- s :: IsDigit(c)
  }

  predicate ShortEscape(c: char) {
    c in "\"\\/bfnrt"
  }

  predicate ValidUnit(u: Unit) {
    match u
    case Plain(c) => c >= ' ' && c != '"' && c != '\\'
    case Escape(c) => ShortEscape(c)
    case Hex(d) => |d| == 4 && forall c <- d :: IsHex(c)
  }

  predicate ValidUnits(units: seq<Unit>) {
    forall u <- units :: ValidUnit(u)
  }

  predicate IsWhole(s: string) {
    s == "0" || (s != "" && AllDigits(s) && s[0] != '0')
  }

  predicate IsFraction(s: string) {
    s == "" || (|s| > 1 && s[0] == '.' && AllDigits(s[1..]))
  }

  function SignLength(s: string): nat {
    if s != "" && (s[0] == '+' || s[0] == '-') then 1 else 0
  }

  predicate IsExponent(s: string) {
    s == "" || ((s[0] == 'e' || s[0] == 'E')
                && var digits := s[1..][SignLength(s[1..])..]; digits != "" && AllDigits(digits))
  }

  predicate Valid(c: Cst) {
    match c
    case Word(t) => t == "null" || t == "true" || t == "false"
    case Number(_, whole, fraction, exponent) => IsWhole(whole) && IsFraction(fraction) && IsExponent(exponent)
    case Str(units) => ValidUnits(units)
    case Arr(items, gap) =>
      && AllSpace(gap) && (items != [] ==> gap == "")
      && forall i <- items :: ValidItem(i)
    case Obj(members, gap) =>
      && AllSpace(gap) && (members != [] ==> gap == "")
      && forall m <- members :: ValidMember(m)
  }

  predicate ValidItem(i: Item) {
    AllSpace(i.before) && Valid(i.value) && AllSpace(i.after)
  }

  predicate ValidMember(m: Member) {
    AllSpace(m.before) && ValidUnits(m.name) && AllSpace(m.colon) && ValidItem(m.item)
  }

  function PrintUnit(u: Unit): (s: string)
    ensures s != ""
  {
    match u
    case Plain(c) => [c]
    case Escape(c) => ['\\', c]
    case Hex(d) => "\\u" + d
  }

  // Each of these is something as written, followed by rest.

  function PrintUnits(units: seq<Unit>, rest: string): string {
    if units == [] then ['"'] + rest else PrintUnit(units[0]) + PrintUnits(units[1..], rest)
  }

  function PrintNumber(minus: bool, whole: string, fraction: string, exponent: string, rest: string): string {
    (if minus then "-" else "") + (whole + (fraction + (exponent + rest)))
  }

  function Print(c: Cst, rest: string): string
    decreases c, 0
  {
    match c
    case Word(t) => t + rest
    case Number(minus, whole, fraction, exponent) => PrintNumber(minus, whole, fraction, exponent, rest)
    case Str(units) => ['"'] + PrintUnits(units, rest)
    case Arr(items, gap) => ['['] + (gap + PrintItems(items, [']'] + rest))
    case Obj(members, gap) => ['{'] + (gap + PrintMembers(members, ['}'] + rest))
  }

  function PrintItem(i: Item, rest: string): string
    decreases i, 1
  {
    i.before + Print(i.value, i.after + rest)
  }

  function PrintItems(items: seq<Item>, rest: string): string
    decreases items, 2
  {
    if items == [] then rest
    else if |items| == 1 then PrintItem(items[0], rest)
    else PrintItem(items[0], [','] + PrintItems(items[1..], rest))
  }

  function PrintMember(m: Member, rest: string): string
    decreases m, 1
  {
    m.before + (['"'] + PrintUnits(m.name, m.colon + ([':'] + PrintItem(m.item, rest))))
  }

  function PrintMembers(members: seq<Member>, rest: string): string
    decreases members, 2
  {
    if members == [] then rest
    else if |members| == 1 then PrintMember(members[0], rest)
    else PrintMember(members[0], [','] + PrintMembers(members[1..], rest))
  }

  // ---------------------------------------------------------------- meaning

  function HexCode(d: string): (n: nat)
    ensures n < 0x10000
  {
    if |d| != 4 then 0
    else ((HexValue(d[0]) * 16 + HexValue(d[1])) * 16 + HexValue(d[2])) * 16 + HexValue(d[3])
  }

  function EscapeChar(c: char): char {
    match c
    case 'b' => '\U{0008}'
    case 'f' => '\U{000C}'
    case 'n' => '\n'
    case 'r' => '\r'
    case 't' => '\t'
    case _ => c
  }

  /** The string a string literal denotes; a surrogate without its pair denotes U+FFFD. */
  function Unescape(units: seq<Unit>): string
  {
    if units == [] then ""
    else
      match units[0]
      case Plain(c) => [c] + Unescape(units[1..])
      case Escape(c) => [EscapeChar(c)] + Unescape(units[1..])
      case Hex(d) =>
        var n := HexCode(d);
        if !(0xD800 <= n < 0xE000) then [n as char] + Unescape(units[1..])
        else if n < 0xDC00 && |units| > 1 && units[1].Hex? && 0xDC00 <= HexCode(units[1].digits) < 0xE000 then
          var low := HexCode(units[1].digits);
          [(0x10000 + (n - 0xD800) * 0x400 + (low - 0xDC00)) as char] + Unescape(units[2..])
        else ['\U{FFFD}'] + Unescape(units[1..])
  }

  function Denotes(c: Cst): Value {
    match c
    case Word(t) => if t == "null" then VNull else VBool(t == "true")
    case Number(minus, whole, fraction, exponent) => VNumber(PrintNumber(minus, whole, fraction, exponent, ""))
    case Str(units) => VString(Unescape(units))
    case Arr(items, _) => VList(ItemValues(items))
    case Obj(members, _) => VObject(MemberValues(members))
  }

  function ItemValues(items: seq<Item>): seq<Value> {
    if items == [] then [] else [Denotes(items[0].value)] + ItemValues(items[1..])
  }

  function MemberValues(members: seq<Member>): seq<(string, Value)> {
    if members == [] then []
    else [(Unescape(members[0].name), Denotes(members[0].item.value))] + MemberValues(members[1..])
  }

  // ----------------------------------------------------------------- reader

  function Spaces(s: string): (r: Read<string>)
    ensures r.Read? && AllSpace(r.value) && s == r.value + r.rest && |r.rest| <= |s|
    ensures r.rest == "" || !IsSpace(r.rest[0])
  {
    if s == "" || !IsSpace(s[0]) then Read("", s)
    else
      var r := Spaces(s[1..]);
      Read([s[0]] + r.value, r.rest)
  }

  function Digits(s: string): (r: Read<string>)
    ensures r.Read? && AllDigits(r.value) && s == r.value + r.rest
    ensures r.rest == "" || !IsDigit(r.rest[0])
  {
    if s == "" || !IsDigit(s[0]) then Read("", s)
    else
      var r := Digits(s[1..]);
      Read([s[0]] + r.value, r.rest)
  }

  function ReadUnits(s: string): (r: Read<seq<Unit>>)
    ensures r.Read? ==> |r.rest| < |s|
  {
    if s == "" then Bad
    else if s[0] == '"' then Read([], s[1..])
    else
      var u := ReadUnit(s);
      if u.Bad? then Bad
      else
        var more := ReadUnits(u.rest);
        if more.Bad? then Bad else Read([u.value] + more.value, more.rest)
  }

  lemma FirstTwo(s: string)
    requires |s| >= 2
    ensures s == [s[0], s[1]] + s[2..]
  {}

  function ReadUnit(s: string): (r: Read<Unit>)
    requires s != "" && s[0] != '"'
    ensures r.Read? ==> ValidUnit(r.value) && s == PrintUnit(r.value) + r.rest
  {
    if s[0] == '\\' then
      if |s| >= 6 && s[1] == 'u' && (forall c <- s[2..6] :: IsHex(c)) then
        assert s == PrintUnit(Hex(s[2..6])) + s[6..];
        Read(Hex(s[2..6]), s[6..])
      else if |s| >= 2 && ShortEscape(s[1]) then
        FirstTwo(s);
        Read(Escape(s[1]), s[2..])
      else Bad
    else if s[0] >= ' ' then
      assert s == [s[0]] + s[1..];
      Read(Plain(s[0]), s[1..])
    else Bad
  }

  function ReadNumber(s: string): (r: Read<Cst>)
    ensures r.Read? ==> |r.rest| < |s|
  {
    var minus := s != "" && s[0] == '-';
    var whole := ReadWhole(if minus then s[1..] else s);
    if whole.Bad? then Bad
    else
      var fraction := ReadFraction(whole.rest);
      var exponent := ReadExponent(fraction.rest);
      Read(Number(minus, whole.value, fraction.value, exponent.value), exponent.rest)
  }

  function ReadWhole(s: string): (r: Read<string>)
    ensures r.Read? ==> IsWhole(r.value) && s == r.value + r.rest
  {
    var digits := Digits(s);
    if digits.value == "" then Bad
    else if s[0] == '0' then Read("0", s[1..])
    else Read(digits.value, digits.rest)
  }

  function ReadFraction(s: string): (r: Read<string>)
    ensures r.Read? && IsFraction(r.value) && s == r.value + r.rest
  {
    if s != "" && s[0] == '.' && Digits(s[1..]).value != ""
    then Read("." + Digits(s[1..]).value, Digits(s[1..]).rest)
    else Read("", s)
  }

  function ReadExponent(s: string): (r: Read<string>)
    ensures r.Read? && IsExponent(r.value) && s == r.value + r.rest
  {
    if s == "" || (s[0] != 'e' && s[0] != 'E') then Read("", s)
    else
      var n := 1 + SignLength(s[1..]);
      var digits := Digits(s[n..]);
      if digits.value == "" then Read("", s)
      else
        ExponentText(s, n, digits.value);
        Read(s[..n] + digits.value, digits.rest)
  }

  lemma ExponentText(s: string, n: nat, digits: string)
    requires s != "" && (s[0] == 'e' || s[0] == 'E') && n == 1 + SignLength(s[1..])
    requires digits != "" && AllDigits(digits) && digits <= s[n..]
    ensures IsExponent(s[..n] + digits)
  {
    var e := s[..n] + digits;
    assert IsDigit(digits[0]) && digits[0] == s[n..][0];
    assert e[1..] == s[1..n] + digits;
    assert SignLength(e[1..]) == n - 1;
    assert e[1..][n - 1..] == digits;
  }

  function ReadWord(s: string, word: string): (r: Read<Cst>)
    ensures r.Read? ==> s == word + r.rest
  {
    if word <= s then Read(Word(word), s[|word|..]) else Bad
  }

  /** The value at the head of s. */
  function ReadValue(s: string): (r: Read<Cst>)
    ensures r.Read? ==> |r.rest| < |s|
    decreases |s|, 0
  {
    if s == "" then Bad
    else if s[0] == '-' || IsDigit(s[0]) then ReadNumber(s)
    else if s[0] == '"' then
      var u := ReadUnits(s[1..]);
      if u.Bad? then Bad else Read(Str(u.value), u.rest)
    else if s[0] == '[' then ReadArr(s[1..])
    else if s[0] == '{' then ReadObj(s[1..])
    else if s[0] == 'n' then ReadWord(s, "null")
    else if s[0] == 't' then ReadWord(s, "true")
    else if s[0] == 'f' then ReadWord(s, "false")
    else Bad
  }

  /** An array, from after its opening bracket. */
  function ReadArr(s: string): (r: Read<Cst>)
    ensures r.Read? ==> |r.rest| < |s|
    decreases |s|, 3
  {
    var gap := Spaces(s);
    if gap.rest != "" && gap.rest[0] == ']' then Read(Arr([], gap.value), gap.rest[1..])
    else
      var items := ReadItems(s);
      if items.Bad? || items.rest == "" || items.rest[0] != ']' then Bad
      else Read(Arr(items.value, ""), items.rest[1..])
  }

  function ReadObj(s: string): (r: Read<Cst>)
    ensures r.Read? ==> |r.rest| < |s|
    decreases |s|, 3
  {
    var gap := Spaces(s);
    if gap.rest != "" && gap.rest[0] == '}' then Read(Obj([], gap.value), gap.rest[1..])
    else
      var members := ReadMembers(s);
      if members.Bad? || members.rest == "" || members.rest[0] != '}' then Bad
      else Read(Obj(members.value, ""), members.rest[1..])
  }

  function ReadItem(s: string): (r: Read<Item>)
    ensures r.Read? ==> |r.rest| < |s|
    decreases |s|, 1
  {
    var before := Spaces(s);
    var v := ReadValue(before.rest);
    if v.Bad? then Bad
    else
      var after := Spaces(v.rest);
      Read(Item(before.value, v.value, after.value), after.rest)
  }

  function ReadItems(s: string): (r: Read<seq<Item>>)
    ensures r.Read? ==> |r.rest| < |s| && r.value != []
    decreases |s|, 2
  {
    var first := ReadItem(s);
    if first.Bad? then Bad
    else if first.rest != "" && first.rest[0] == ',' then
      var more := ReadItems(first.rest[1..]);
      if more.Bad? then Bad else Read([first.value] + more.value, more.rest)
    else Read([first.value], first.rest)
  }

  function ReadMember(s: string): (r: Read<Member>)
    ensures r.Read? ==> |r.rest| < |s|
    decreases |s|, 1
  {
    var before := Spaces(s);
    if before.rest == "" || before.rest[0] != '"' then Bad
    else
      var name := ReadUnits(before.rest[1..]);
      if name.Bad? then Bad
      else
        var colon := Spaces(name.rest);
        if colon.rest == "" || colon.rest[0] != ':' then Bad
        else
          var item := ReadItem(colon.rest[1..]);
          if item.Bad? then Bad
          else Read(Member(before.value, name.value, colon.value, item.value), item.rest)
  }

  function ReadMembers(s: string): (r: Read<seq<Member>>)
    ensures r.Read? ==> |r.rest| < |s| && r.value != []
    decreases |s|, 2
  {
    var first := ReadMember(s);
    if first.Bad? then Bad
    else if first.rest != "" && first.rest[0] == ',' then
      var more := ReadMembers(first.rest[1..]);
      if more.Bad? then Bad else Read([first.value] + more.value, more.rest)
    else Read([first.value], first.rest)
  }

  /** A whole JSON text: one value with white space around it. */
  function ReadText(s: string): Option<Item> {
    var r := ReadItem(s);
    if r.Bad? || r.rest != "" then None else Some(r.value)
  }

  // --------------------------------------------------- the reader is sound

  lemma {:induction false} UnitsSound(s: string)
    ensures var r := ReadUnits(s); r.Read? ==> ValidUnits(r.value) && s == PrintUnits(r.value, r.rest)
  {
    if s != "" && s[0] != '"' {
      var u := ReadUnit(s);
      if u.Read? {
        UnitsSound(u.rest);
        var more := ReadUnits(u.rest);
        if more.Read? {
          Cons(u.value, more.value);
        }
      }
    }
  }

  lemma NumberSound(s: string)
    ensures var r := ReadNumber(s); r.Read? ==> Valid(r.value) && s == Print(r.value, r.rest)
  {
    var minus := s != "" && s[0] == '-';
    assert s == (if minus then "-" else "") + (if minus then s[1..] else s);
  }

  lemma {:induction false} ValueSound(s: string)
    ensures var r := ReadValue(s); r.Read? ==> Valid(r.value) && s == Print(r.value, r.rest)
    decreases |s|, 1
  {
    if s != "" {
      if s[0] == '-' || IsDigit(s[0]) {
        NumberSound(s);
      } else if s[0] == '"' {
        UnitsSound(s[1..]);
      } else if s[0] == '[' {
        ArrSound(s[1..]);
        Uncons(s);
      } else if s[0] == '{' {
        ObjSound(s[1..]);
        Uncons(s);
      } else {
        WordSound(s);
      }
    }
  }

  lemma WordSound(s: string)
    requires s != "" && s[0] != '-' && !IsDigit(s[0]) && s[0] != '"' && s[0] != '[' && s[0] != '{'
    ensures var r := ReadValue(s); r.Read? ==> Valid(r.value) && s == Print(r.value, r.rest)
  {}

  lemma {:induction false} ArrSound(s: string)
    ensures var r := ReadArr(s);
            r.Read? ==> Valid(r.value) && ['['] + s == Print(r.value, r.rest)
    decreases |s|, 4
  {
    var gap, items := Spaces(s), ReadItems(s);
    if gap.rest != "" && gap.rest[0] == ']' {
      Uncons(gap.rest);
    } else {
      ItemsSound(s);
      if items.Read? && items.rest != "" && items.rest[0] == ']' {
        Uncons(items.rest);
        NoGap("", s);
      }
    }
  }

  lemma {:induction false} ObjSound(s: string)
    ensures var r := ReadObj(s);
            r.Read? ==> Valid(r.value) && ['{'] + s == Print(r.value, r.rest)
    decreases |s|, 4
  {
    var gap, members := Spaces(s), ReadMembers(s);
    if gap.rest != "" && gap.rest[0] == '}' {
      Uncons(gap.rest);
    } else {
      MembersSound(s);
      if members.Read? && members.rest != "" && members.rest[0] == '}' {
        Uncons(members.rest);
        NoGap("", s);
      }
    }
  }

  lemma {:induction false} ItemSound(s: string)
    ensures var r := ReadItem(s); r.Read? ==> ValidItem(r.value) && s == PrintItem(r.value, r.rest)
    decreases |s|, 2
  {
    ValueSound(Spaces(s).rest);
  }

  lemma {:induction false} ItemsSound(s: string)
    ensures var r := ReadItems(s);
            r.Read? ==> (forall i <- r.value :: ValidItem(i)) && s == PrintItems(r.value, r.rest)
    decreases |s|, 3
  {
    var first := ReadItem(s);
    ItemSound(s);
    if first.Read? && first.rest != "" && first.rest[0] == ',' {
      ItemsSound(first.rest[1..]);
      var more := ReadItems(first.rest[1..]);
      if more.Read? {
        Cons(first.value, more.value);
        Uncons(first.rest);
      }
    }
  }

  lemma {:induction false} MemberSound(s: string)
    ensures var r := ReadMember(s); r.Read? ==> ValidMember(r.value) && s == PrintMember(r.value, r.rest)
    decreases |s|, 2
  {
    var before := Spaces(s);
    if before.rest != "" && before.rest[0] == '"' {
      UnitsSound(before.rest[1..]);
      var name := ReadUnits(before.rest[1..]);
      if name.Read? {
        var colon := Spaces(name.rest);
        if colon.rest != "" && colon.rest[0] == ':' {
          ItemSound(colon.rest[1..]);
          Uncons(colon.rest);
          Uncons(before.rest);
        }
      }
    }
  }

  lemma {:induction false} MembersSound(s: string)
    ensures var r := ReadMembers(s);
            r.Read? ==> (forall m <- r.value :: ValidMember(m)) && s == PrintMembers(r.value, r.rest)
    decreases |s|, 3
  {
    var first := ReadMember(s);
    MemberSound(s);
    if first.Read? && first.rest != "" && first.rest[0] == ',' {
      MembersSound(first.rest[1..]);
      var more := ReadMembers(first.rest[1..]);
      if more.Read? {
        MembersJoin(first.value, more.value, more.rest);
        Uncons(first.rest);
      }
    }
  }

  lemma MembersJoin(m: Member, ms: seq<Member>, rest: string)
    requires ms != []
    ensures PrintMembers([m] + ms, rest) == PrintMember(m, [','] + PrintMembers(ms, rest))
  {
    Cons(m, ms);
  }

  // -------------------------------------------------------- and is complete

  /** Where a value can end: at the end of the text, or before white space, a comma or a bracket. */
  predicate Ends(rest: string) {
    rest == "" || IsSpace(rest[0]) || rest[0] == ',' || rest[0] == ']' || rest[0] == '}'
  }

  /** What cannot be more of a number. */
  predicate NoNumber(rest: string) {
    rest == "" || (!IsDigit(rest[0]) && rest[0] != '.' && rest[0] != 'e' && rest[0] != 'E')
  }

  lemma {:induction false} SpacesRead(ws: string, rest: string)
    requires AllSpace(ws) && (rest == "" || !IsSpace(rest[0]))
    ensures Spaces(ws + rest) == Read(ws, rest)
  {
    if ws == "" {
      assert ws + rest == rest;
    } else {
      assert (ws + rest)[1..] == ws[1..] + rest && ws == [ws[0]] + ws[1..];
      SpacesRead(ws[1..], rest);
    }
  }

  lemma {:induction false} DigitsRead(ds: string, rest: string)
    requires AllDigits(ds) && (rest == "" || !IsDigit(rest[0]))
    ensures Digits(ds + rest) == Read(ds, rest)
  {
    if ds == "" {
      assert ds + rest == rest;
    } else {
      assert (ds + rest)[1..] == ds[1..] + rest && ds == [ds[0]] + ds[1..];
      DigitsRead(ds[1..], rest);
    }
  }

  lemma UnitReads(u: Unit, rest: string)
    requires ValidUnit(u)
    ensures var s := PrintUnit(u) + rest; s[0] != '"' && ReadUnit(s) == Read(u, rest)
  {
    var s := PrintUnit(u) + rest;
    match u
    case Plain(c) => assert s[1..] == rest;
    case Escape(c) => assert s[1] == c && s[2..] == rest;
    case Hex(d) => assert s[1] == 'u' && s[2..6] == d && s[6..] == rest;
  }

  lemma {:induction false} UnitsRead(units: seq<Unit>, rest: string)
    requires ValidUnits(units)
    ensures ReadUnits(PrintUnits(units, rest)) == Read(units, rest)
  {
    if units == [] {
      Cons('"', rest);
    } else {
      UnitReads(units[0], PrintUnits(units[1..], rest));
      UnitsRead(units[1..], rest);
      Uncons(units);
    }
  }

  lemma NumberReads(c: Cst, rest: string)
    requires c.Number? && Valid(c) && NoNumber(rest)
    ensures ReadValue(Print(c, rest)) == Read(c, rest)
  {
    var s := c.whole + (c.fraction + (c.exponent + rest));
    NumberStarts(c, s);
    UnsignedReads(c, s, rest);
  }

  lemma NumberStarts(c: Cst, s: string)
    requires c.Number? && IsWhole(c.whole) && c.whole <= s
    ensures var t := (if c.minus then "-" else "") + s; ReadValue(t) == ReadNumber(t)
    ensures c.minus || (s[0] != '-' && "" + s == s)
  {
    var t := (if c.minus then "-" else "") + s;
    assert s[0] == c.whole[0] && IsDigit(s[0]);
    assert t[0] == if c.minus then '-' else s[0];
    assert c.minus || t == s;
  }

  lemma UnsignedReads(c: Cst, s: string, rest: string)
    requires c.Number? && Valid(c) && NoNumber(rest)
    requires s == c.whole + (c.fraction + (c.exponent + rest)) && (c.minus || (s[0] != '-' && "" + s == s))
    ensures ReadNumber((if c.minus then "-" else "") + s) == Read(c, rest)
  {
    ExponentReads(c.exponent, rest);
    FractionReads(c.fraction, c.exponent + rest);
    WholeReads(c.whole, c.fraction + (c.exponent + rest));
    Cons('-', s);
  }

  lemma ExponentReads(e: string, rest: string)
    requires IsExponent(e) && NoNumber(rest)
    ensures ReadExponent(e + rest) == Read(e, rest)
    ensures var s := e + rest; s == "" || (!IsDigit(s[0]) && s[0] != '.')
  {
    var s := e + rest;
    if e == "" {
      assert s == rest;
    } else {
      var n := 1 + SignLength(e[1..]);
      var digits := e[1..][SignLength(e[1..])..];
      assert digits == e[n..];
      assert SignLength(s[1..]) == SignLength(e[1..]);
      assert s[n..] == digits + rest;
      DigitsRead(digits, rest);
      assert s[..n] + digits == e;
    }
  }

  lemma FractionReads(f: string, rest: string)
    requires IsFraction(f) && (rest == "" || (!IsDigit(rest[0]) && rest[0] != '.'))
    ensures ReadFraction(f + rest) == Read(f, rest)
    ensures var s := f + rest; s == "" || !IsDigit(s[0])
  {
    if f == "" {
      assert f + rest == rest;
    } else {
      assert (f + rest)[1..] == f[1..] + rest;
      DigitsRead(f[1..], rest);
      assert "." + f[1..] == f;
    }
  }

  lemma WholeReads(w: string, rest: string)
    requires IsWhole(w) && (rest == "" || !IsDigit(rest[0]))
    ensures ReadWhole(w + rest) == Read(w, rest)
  {
    DigitsRead(w, rest);
    assert w == "0" ==> (w + rest)[1..] == rest;
  }

  /** What a value starts with: no white space, comma or closing bracket. */
  lemma Starts(c: Cst, rest: string)
    requires Valid(c)
    ensures var s := Print(c, rest);
            s != "" && !IsSpace(s[0]) && s[0] != ',' && s[0] != ':' && s[0] != ']' && s[0] != '}'
  {
    if c.Number? {
      var s := c.whole + (c.fraction + (c.exponent + rest));
      assert s[0] == c.whole[0] && IsDigit(c.whole[0]);
      assert "" + s == s;
    }
  }

  /** The reader finds any value of the grammar, exactly as it is written. */
  lemma {:induction false} ValueReads(c: Cst, rest: string)
    requires Valid(c) && (c.Number? ==> NoNumber(rest))
    ensures ReadValue(Print(c, rest)) == Read(c, rest)
    decreases c, 0
  {
    match c
    case Word(t) => assert (t + rest)[..|t|] == t && (t + rest)[|t|..] == rest;
    case Number(_, _, _, _) => NumberReads(c, rest);
    case Str(units) =>
      Cons('"', PrintUnits(units, rest));
      UnitsRead(units, rest);
    case Arr(items, gap) => ArrReads(items, gap, rest);
    case Obj(members, gap) => ObjReads(members, gap, rest);
  }

  lemma {:induction false} ArrReads(items: seq<Item>, gap: string, rest: string)
    requires Valid(Arr(items, gap))
    ensures ReadValue(Print(Arr(items, gap), rest)) == Read(Arr(items, gap), rest)
    decreases items, 4
  {
    var text := PrintItems(items, [']'] + rest);
    if items == [] {
      EmptyReads(gap, rest);
    } else {
      NoGap(gap, text);
      SomeItemsRead(items, rest);
    }
    Cons('[', gap + text);
  }

  lemma {:induction false} SomeItemsRead(items: seq<Item>, rest: string)
    requires items != [] && forall i <- items :: ValidItem(i)
    ensures ReadArr(PrintItems(items, [']'] + rest)) == Read(Arr(items, ""), rest)
    decreases items, 3
  {
    Cons(']', rest);
    ItemsStart(items, [']'] + rest);
    ItemsRead(items, [']'] + rest);
  }

  lemma {:induction false} ObjReads(members: seq<Member>, gap: string, rest: string)
    requires Valid(Obj(members, gap))
    ensures ReadValue(Print(Obj(members, gap), rest)) == Read(Obj(members, gap), rest)
    decreases members, 4
  {
    var text := PrintMembers(members, ['}'] + rest);
    if members == [] {
      EmptyReads(gap, rest);
    } else {
      NoGap(gap, text);
      SomeMembersRead(members, rest);
    }
    Cons('{', gap + text);
  }

  lemma EmptyReads(gap: string, rest: string)
    requires AllSpace(gap)
    ensures ReadObj(gap + (['}'] + rest)) == Read(Obj([], gap), rest)
    ensures ReadArr(gap + ([']'] + rest)) == Read(Arr([], gap), rest)
  {
    Cons('}', rest);
    SpacesRead(gap, ['}'] + rest);
    Cons(']', rest);
    SpacesRead(gap, [']'] + rest);
  }

  lemma {:induction false} SomeMembersRead(members: seq<Member>, rest: string)
    requires members != [] && forall m <- members :: ValidMember(m)
    ensures ReadObj(PrintMembers(members, ['}'] + rest)) == Read(Obj(members, ""), rest)
    decreases members, 3
  {
    Cons('}', rest);
    MembersStart(members, ['}'] + rest);
    MembersRead(members, ['}'] + rest);
  }

  lemma NoGap(gap: string, text: string)
    requires gap == ""
    ensures gap + text == text
  {}

  lemma ItemsStart(items: seq<Item>, rest: string)
    requires items != [] && forall i <- items :: ValidItem(i)
    ensures var r := Spaces(PrintItems(items, rest)).rest; r != "" && r[0] != ']'
  {
    var i := items[0];
    assert ValidItem(i);
    var more := i.after + if |items| == 1 then rest else [','] + PrintItems(items[1..], rest);
    Starts(i.value, more);
    SpacesRead(i.before, Print(i.value, more));
  }

  lemma MembersStart(members: seq<Member>, rest: string)
    requires members != [] && forall m <- members :: ValidMember(m)
    ensures var r := Spaces(PrintMembers(members, rest)).rest; r != "" && r[0] != '}'
  {
    var m := members[0];
    assert ValidMember(m);
    var later := if |members| == 1 then rest else [','] + PrintMembers(members[1..], rest);
    var more := m.colon + ([':'] + PrintItem(m.item, later));
    SpacesRead(m.before, ['"'] + PrintUnits(m.name, more));
  }

  lemma {:induction false} ItemReads(i: Item, rest: string)
    requires ValidItem(i) && Ends(rest) && (rest == "" || !IsSpace(rest[0]))
    ensures ReadItem(PrintItem(i, rest)) == Read(i, rest)
    decreases i, 1
  {
    Starts(i.value, i.after + rest);
    SpacesRead(i.before, Print(i.value, i.after + rest));
    var next := i.after + rest;
    assert i.after != "" ==> i.after[0] in i.after;
    assert next == "" || next[0] == if i.after != "" then i.after[0] else rest[0];
    ValueReads(i.value, next);
    SpacesRead(i.after, rest);
  }

  lemma {:induction false} ItemsRead(items: seq<Item>, rest: string)
    requires items != [] && forall i <- items :: ValidItem(i)
    requires rest != "" && rest[0] == ']'
    ensures ReadItems(PrintItems(items, rest)) == Read(items, rest)
    decreases items, 2
  {
    if |items| == 1 {
      ItemReads(items[0], rest);
      assert [items[0]] == items;
    } else {
      var more := [','] + PrintItems(items[1..], rest);
      Cons(',', PrintItems(items[1..], rest));
      ItemReads(items[0], more);
      ItemsRead(items[1..], rest);
      Uncons(items);
    }
  }

  lemma {:induction false} MemberReads(m: Member, rest: string)
    requires ValidMember(m) && Ends(rest) && (rest == "" || !IsSpace(rest[0]))
    ensures ReadMember(PrintMember(m, rest)) == Read(m, rest)
    decreases m, 1
  {
    var value := [':'] + PrintItem(m.item, rest);
    var name := ['"'] + PrintUnits(m.name, m.colon + value);
    SpacesRead(m.before, name);
    Cons('"', PrintUnits(m.name, m.colon + value));
    UnitsRead(m.name, m.colon + value);
    SpacesRead(m.colon, value);
    Cons(':', PrintItem(m.item, rest));
    ItemReads(m.item, rest);
  }

  lemma {:induction false} MembersRead(members: seq<Member>, rest: string)
    requires members != [] && forall m <- members :: ValidMember(m)
    requires rest != "" && rest[0] == '}'
    ensures ReadMembers(PrintMembers(members, rest)) == Read(members, rest)
    decreases members, 2
  {
    if |members| == 1 {
      MemberReads(members[0], rest);
      assert [members[0]] == members;
    } else {
      var more := [','] + PrintMembers(members[1..], rest);
      Cons(',', PrintMembers(members[1..], rest));
      MemberReads(members[0], more);
      MembersRead(members[1..], rest);
      Uncons(members);
    }
  }

  /** A text reads as i if and only if it is i written out: reading loses nothing and takes nothing else. */
  lemma TextReads(s: string, i: Item)
    ensures ReadText(s) == Some(i) <==> ValidItem(i) && s == PrintItem(i, "")
  {
    ItemSound(s);
    if ValidItem(i) && s == PrintItem(i, "") {
      ItemReads(i, "");
    }
  }

  // -------------------------------------------------- text after the text

  lemma {:induction false} UnitsThen(units: seq<Unit>, a: string, b: string)
    ensures PrintUnits(units, a + b) == PrintUnits(units, a) + b
  {
    if units == [] {
      Assoc(['"'], a, b);
    } else {
      UnitsThen(units[1..], a, b);
      Assoc(PrintUnit(units[0]), PrintUnits(units[1..], a), b);
    }
  }

  /** What follows a value does not show in how it is written. */
  lemma {:induction false} PrintThen(c: Cst, a: string, b: string)
    ensures Print(c, a + b) == Print(c, a) + b
    decreases c, 0
  {
    match c
    case Word(t) => Assoc(t, a, b);
    case Number(minus, whole, fraction, exponent) =>
      Assoc(exponent, a, b);
      Assoc(fraction, exponent + a, b);
      Assoc(whole, fraction + (exponent + a), b);
      Assoc(if minus then "-" else "", whole + (fraction + (exponent + a)), b);
    case Str(units) =>
      UnitsThen(units, a, b);
      Assoc(['"'], PrintUnits(units, a), b);
    case Arr(items, gap) =>
      ItemsThen(items, [']'] + a, b);
      Assoc([']'], a, b);
      Assoc(gap, PrintItems(items, [']'] + a), b);
      Assoc(['['], gap + PrintItems(items, [']'] + a), b);
    case Obj(members, gap) =>
      MembersThen(members, ['}'] + a, b);
      Assoc(['}'], a, b);
      Assoc(gap, PrintMembers(members, ['}'] + a), b);
      Assoc(['{'], gap + PrintMembers(members, ['}'] + a), b);
  }

  lemma {:induction false} ItemThen(i: Item, a: string, b: string)
    ensures PrintItem(i, a + b) == PrintItem(i, a) + b
    decreases i, 1
  {
    PrintThen(i.value, i.after + a, b);
    Assoc(i.after, a, b);
    Assoc(i.before, Print(i.value, i.after + a), b);
  }

  lemma {:induction false} ItemsThen(items: seq<Item>, a: string, b: string)
    ensures PrintItems(items, a + b) == PrintItems(items, a) + b
    decreases items, 2
  {
    if |items| == 1 {
      ItemThen(items[0], a, b);
    } else if items != [] {
      ItemsThen(items[1..], a, b);
      ItemThen(items[0], [','] + PrintItems(items[1..], a), b);
      Assoc([','], PrintItems(items[1..], a), b);
    }
  }

  lemma {:induction false} MemberThen(m: Member, a: string, b: string)
    ensures PrintMember(m, a + b) == PrintMember(m, a) + b
    decreases m, 1
  {
    ItemThen(m.item, a, b);
    Assoc([':'], PrintItem(m.item, a), b);
    Assoc(m.colon, [':'] + PrintItem(m.item, a), b);
    UnitsThen(m.name, m.colon + ([':'] + PrintItem(m.item, a)), b);
    Assoc(['"'], PrintUnits(m.name, m.colon + ([':'] + PrintItem(m.item, a))), b);
    Assoc(m.before, ['"'] + PrintUnits(m.name, m.colon + ([':'] + PrintItem(m.item, a))), b);
  }

  lemma {:induction false} MembersThen(members: seq<Member>, a: string, b: string)
    ensures PrintMembers(members, a + b) == PrintMembers(members, a) + b
    decreases members, 2
  {
    if |members| == 1 {
      MemberThen(members[0], a, b);
    } else if members != [] {
      MembersThen(members[1..], a, b);
      MemberThen(members[0], [','] + PrintMembers(members[1..], a), b);
      Assoc([','], PrintMembers(members[1..], a), b);
    }
  }

  // ------------------------------------------------------ scanning strings

  /** A string literal after its opening quote, up to its closing one: a backslash skips the next character. */
  function Literal(s: string): (r: Read<string>)
    ensures r.Read? ==> s == r.value + r.rest && r.value != ""
  {
    if s == "" then Bad
    else if s[0] == '"' then Read(s[..1], s[1..])
    else
      var n := if s[0] == '\\' then 2 else 1;
      if |s| < n then Bad
      else
        var more := Literal(s[n..]);
        if more.Bad? then Bad else Read(s[..n] + more.value, more.rest)
  }

  lemma {:induction false} LiteralOfUnits(units: seq<Unit>, rest: string)
    requires ValidUnits(units)
    ensures Literal(PrintUnits(units, rest)) == Read(PrintUnits(units, ""), rest)
  {
    if units == [] {
      Cons('"', rest);
      assert (['"'] + rest)[..1] == ['"'] + "";
    } else {
      LiteralOfUnits(units[1..], rest);
      LiteralOfUnit(units[0], PrintUnits(units[1..], rest));
    }
  }

  lemma LiteralOfUnit(u: Unit, s: string)
    requires ValidUnit(u) && Literal(s).Read?
    ensures Literal(PrintUnit(u) + s) == Read(PrintUnit(u) + Literal(s).value, Literal(s).rest)
  {
    match u
    case Plain(c) => LiteralOfPlain([c], s);
    case Escape(c) => LiteralOfEscape(c, s);
    case Hex(d) =>
      LiteralOfPlain(d, s);
      LiteralOfEscape('u', d + s);
      Assoc("\\u", d, s);
      Assoc("\\u", d, Literal(s).value);
  }

  lemma LiteralOfEscape(c: char, s: string)
    requires Literal(s).Read?
    ensures Literal(['\\', c] + s) == Read(['\\', c] + Literal(s).value, Literal(s).rest)
  {
    var t := ['\\', c] + s;
    assert t[..2] == ['\\', c] && t[2..] == s;
  }

  lemma {:induction false} LiteralOfPlain(t: string, s: string)
    requires forall c <- t :: c != '"' && c != '\\'
    requires Literal(s).Read?
    ensures Literal(t + s) == Read(t + Literal(s).value, Literal(s).rest)
  {
    if t == "" {
      assert t + s == s && t + Literal(s).value == Literal(s).value;
    } else {
      assert forall c <- t[1..] :: c in t;
      assert t[0] in t && t == t[..1] + t[1..];
      assert (t + s)[..1] == t[..1] && (t + s)[1..] == t[1..] + s;
      LiteralOfPlain(t[1..], s);
      Assoc(t[..1], t[1..], Literal(s).value);
    }
  }

  lemma ExponentPlain(e: string)
    requires IsExponent(e)
    ensures forall c <- e :: !IsSpace(c) && c != '"'
  {
    if e != "" {
      var n := 1 + SignLength(e[1..]);
      assert e[1..][SignLength(e[1..])..] == e[n..];
      assert e == e[..n] + e[n..];
    }
  }
}
