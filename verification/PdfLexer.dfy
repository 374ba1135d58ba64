/**
 The content stream reader (internal/filecontent/lexer.go): strings, names, numbers, arrays and operators
 of a PDF page. What each read gives and leaves is a function of the text from the cursor on; a byte is
 a character below 256. Which words are numbers is a parameter.
 */
module PdfLexer {
  import opened Wrappers
  import opened Numbers
  import opened Sequences

  type Words = string -> bool

  datatype Value = Number(word: string) | Text(text: string) | Name(name: string) | Array(items: seq<Value>) | Nothing

  datatype Token = End | Operand(value: Value) | Operator(word: string)

  predicate IsSpace(c: char) {
    c == ' ' || c == '\n' || c == '\r' || c == '\t' || c == 12 as char || c == 0 as char
  }

  predicate IsDelim(c: char) {
    c in "()<>[]{}/%"
  }

  predicate IsRegular(c: char) {
    !IsSpace(c) && !IsDelim(c)
  }

  // ---------------------------------------------------------------- literals

  predicate IsOctal(c: char) {
    '0' <= c <= '7'
  }

  function OctalValue(digits: string): nat {
    if digits == [] then 0
    else
      var last := digits[|digits| - 1];
      8 * OctalValue(digits[..|digits| - 1]) + if IsOctal(last) then last as int - '0' as int else 0
  }

  /** How many octal digits, n at most, a text starts with. */
  function OctalRun(s: string, n: nat): (k: nat)
    ensures k <= n && k <= |s| && forall j | 0 <= j < k :: IsOctal(s[j])
  {
    if n == 0 || s == [] || !IsOctal(s[0]) then 0 else 1 + OctalRun(s[1..], n - 1)
  }

  function Byte(n: nat): char {
    (n % 256) as char
  }

  /** The character an escape that is not of octal digits or an end of line is for. */
  function Escaped(e: char): char {
    match e
    case 'n' => '\n'
    case 'r' => '\r'
    case 't' => '\t'
    case 'b' => 8 as char
    case 'f' => 12 as char
    case _ => e
  }

  /** What a read gives, and what it leaves. */
  datatype Read<T> = Read(value: T, rest: string)

  function Prepend(c: char, r: Read<string>): Read<string> {
    Read([c] + r.value, r.rest)
  }

  /** A turn of reading a string: a character or none, how deep it leaves the parentheses, and what it leaves. */
  datatype Turn = Turn(c: Option<char>, depth: nat, rest: string)

  /** An escape, from after its backslash. */
  function EscapeAt(s: string, depth: nat): (t: Turn)
    requires s != []
    ensures |t.rest| < |s|
  {
    if s[0] == '\r' then Turn(None, depth, if |s| > 1 && s[1] == '\n' then s[2..] else s[1..])
    else if s[0] == '\n' then Turn(None, depth, s[1..])
    else if IsOctal(s[0]) then
      var k := 1 + OctalRun(s[1..], 2);
      Turn(Some(Byte(OctalValue(s[..k]))), depth, s[k..])
    else Turn(Some(Escaped(s[0])), depth, s[1..])
  }

  function TurnAt(s: string, depth: nat): (t: Turn)
    requires s != []
    ensures |t.rest| < |s|
  {
    if s[0] == '(' then Turn(Some('('), depth + 1, s[1..])
    else if s[0] == ')' then Turn(Some(')'), if depth == 0 then 0 else depth - 1, s[1..])
    else if s[0] != '\\' then Turn(Some(s[0]), depth, s[1..])
    else if |s| == 1 then Turn(None, depth, [])
    else EscapeAt(s[1..], depth)
  }

  /** A string's bytes, from inside so many parentheses. */
  function Literal(s: string, depth: nat): (r: Read<string>)
    ensures |r.rest| <= |s|
    decreases |s|
  {
    if s == [] then Read("", [])
    else
      var t := TurnAt(s, depth);
      if t.depth == 0 then Read("", t.rest)
      else if t.c.Some? then Prepend(t.c.value, Literal(t.rest, t.depth))
      else Literal(t.rest, t.depth)
  }

  // --------------------------------------------------------------------- hex

  function Pair(hi: nat, lo: nat): char {
    Byte(16 * hi + lo)
  }

  /** A hex string's bytes, from after half a byte or none. */
  function Hex(s: string, half: Option<nat>): (r: Read<string>)
    ensures |r.rest| <= |s|
    decreases |s|
  {
    if s == [] || s[0] == '>' then
      Read(if half.Some? then [Pair(half.value, 0)] else "", if s == [] then [] else s[1..])
    else
      match HexDigit(s[0])
      case None => Hex(s[1..], half)
      case Some(n) =>
        if half.Some? then Prepend(Pair(half.value, n), Hex(s[1..], None)) else Hex(s[1..], Some(n))
  }

  // ------------------------------------------------------------ names, words

  /** A name's next character, and how much of the text it takes. */
  function NameStep(s: string): (t: (char, nat))
    requires s != []
    ensures 0 < t.1 <= |s|
  {
    if s[0] == '#' && |s| > 2 && HexDigit(s[1]).Some? && HexDigit(s[2]).Some? then
      (Pair(HexValue(s[1]), HexValue(s[2])), 3)
    else (s[0], 1)
  }

  function NameText(s: string): (r: Read<string>)
    ensures |r.rest| <= |s|
    decreases |s|
  {
    if s == [] || !IsRegular(s[0]) then Read("", s)
    else Prepend(NameStep(s).0, NameText(s[NameStep(s).1..]))
  }

  function Word(s: string): (r: Read<string>)
    ensures |r.rest| <= |s| && (s != [] && IsRegular(s[0]) ==> |r.rest| < |s|)
  {
    if s == [] || !IsRegular(s[0]) then Read("", s) else Prepend(s[0], Word(s[1..]))
  }

  function AfterSpace(s: string): (r: string)
    ensures |r| <= |s|
  {
    if s != [] && IsSpace(s[0]) then AfterSpace(s[1..]) else s
  }

  function AfterComment(s: string): (r: string)
    ensures |r| <= |s|
  {
    if s != [] && s[0] != '\n' && s[0] != '\r' then AfterComment(s[1..]) else s
  }

  /** A turn of skipping a dictionary: how deep it leaves the brackets, and what it leaves. */
  function DictTurn(s: string, depth: nat): (t: (nat, string))
    requires s != [] && depth > 0
    ensures |t.1| < |s|
  {
    if s[0] == '(' then (depth, Literal(s[1..], 1).rest)
    else if s[0] == '<' && |s| > 1 && s[1] == '<' then (depth + 1, s[2..])
    else if s[0] == '>' && |s| > 1 && s[1] == '>' then (depth - 1, s[2..])
    else if s[0] == '<' then (depth, Hex(s[1..], None).rest)
    else (depth, s[1..])
  }

  function AfterDict(s: string, depth: nat): (r: string)
    ensures |r| <= |s|
    decreases |s|
  {
    if s == [] || depth == 0 then s
    else
      var t := DictTurn(s, depth);
      AfterDict(t.1, t.0)
  }

  // ------------------------------------------------------------------ tokens

  /** What comes after spaces, comments and stray delimiters. */
  function AfterIgnored(s: string): (r: string)
    ensures |r| <= |s| && (r != [] ==> !IsSpace(r[0]) && r[0] !in "%])>{}")
    decreases |s|
  {
    if s == [] then []
    else if s[0] == '%' then AfterIgnored(AfterComment(s[1..]))
    else if IsSpace(s[0]) || s[0] in "])>{}" then AfterIgnored(s[1..])
    else s
  }

  /** The next operand or operator. Each takes some of the text. */
  function NextToken(s: string, number: Words): (r: Read<Token>)
    ensures |r.rest| <= |s| && (r.value != End ==> |r.rest| < |s|) && (r.value == End ==> r.rest == [])
    decreases |s|, 1
  {
    var a := AfterIgnored(s);
    if a == [] then Read(End, []) else Started(a, number)
  }

  function Started(s: string, number: Words): (r: Read<Token>)
    requires s != [] && !IsSpace(s[0]) && s[0] !in "%])>{}"
    ensures |r.rest| < |s| && r.value != End
    decreases |s|, 0
  {
    if s[0] == '(' then
      var t := Literal(s[1..], 1);
      Read(Operand(Text(t.value)), t.rest)
    else if s[0] == '<' && |s| > 1 && s[1] == '<' then Read(Operand(Nothing), AfterDict(s[2..], 1))
    else if s[0] == '<' then
      var t := Hex(s[1..], None);
      Read(Operand(Text(t.value)), t.rest)
    else if s[0] == '/' then
      var t := NameText(s[1..]);
      Read(Operand(Name(t.value)), t.rest)
    else if s[0] == '[' then
      var t := Items(s[1..], number);
      Read(Operand(Array(t.value)), t.rest)
    else
      var t := Word(s);
      Read(if number(t.value) then Operand(Number(t.value)) else Operator(t.value), t.rest)
  }

  /** The operands up to a closing bracket, or all. */
  function Items(s: string, number: Words): (r: Read<seq<Value>>)
    ensures |r.rest| <= |s|
    decreases |s|, 2
  {
    var a := AfterSpace(s);
    if s == [] then Read([], [])
    else if a != [] && a[0] == ']' then Read([], a[1..])
    else
      var t := NextToken(a, number);
      match t.value
      case End => Read([], t.rest)
      case Operator(_) => Items(t.rest, number)
      case Operand(v) =>
        var more := Items(t.rest, number);
        Read([v] + more.value, more.rest)
  }

  /** What is after an image's data: the first EI between spaces, or nothing. */
  function AfterImage(before: char, s: string): (r: string)
    ensures |r| <= |s|
    decreases |s|
  {
    if |s| < 2 then []
    else if s[0] == 'E' && s[1] == 'I' && IsSpace(before) && (|s| == 2 || IsSpace(s[2])) then s[2..]
    else AfterImage(s[0], s[1..])
  }

  /** What is after an image's data and the one space before it. */
  function AfterSpacedImage(s: string): (r: string)
    ensures |r| <= |s|
  {
    if s == [] then [] else AfterImage(s[0], s[1..])
  }

  /** What is after an inline image, from after its BI. */
  function AfterInline(s: string, number: Words): (r: string)
    ensures |r| <= |s|
    decreases |s|
  {
    var t := NextToken(s, number);
    if t.value == End then []
    else if t.value != Operator("ID") then AfterInline(t.rest, number)
    else AfterSpacedImage(t.rest)
  }

  datatype Operation = Operation(operator: string, operands: seq<Value>)

  /** The next operator with its operands, if there is one. */
  function Next(s: string, args: seq<Value>, number: Words): (r: Read<Option<Operation>>)
    ensures |r.rest| <= |s| && (r.value.Some? ==> |r.rest| < |s|)
    decreases |s|
  {
    var t := NextToken(s, number);
    match t.value
    case End => Read(None, t.rest)
    case Operand(v) => Next(t.rest, args + [v], number)
    case Operator(word) =>
      if word == "BI" then Next(AfterInline(t.rest, number), [], number)
      else if IsKeyword(word) then Next(t.rest, args + [Nothing], number)
      else Read(Some(Operation(word, args)), t.rest)
  }

  // --------------------------------------------------- writings of a string

  /** A piece of a literal string, as it may be written. */
  datatype Piece = Plain(c: char) | Escape(e: char) | Octal(digits: string) | Break(eol: string)

  function PieceText(p: Piece, rest: string): string {
    match p
    case Plain(c) => [c] + rest
    case Escape(e) => ['\\'] + ([e] + rest)
    case Octal(digits) => ['\\'] + (digits + rest)
    case Break(eol) => ['\\'] + (eol + rest)
  }

  function Written(ps: seq<Piece>, rest: string): string {
    if ps == [] then rest else PieceText(ps[0], Written(ps[1..], rest))
  }

  function PieceBytes(p: Piece): string {
    match p
    case Plain(c) => [c]
    case Escape(e) => [Escaped(e)]
    case Octal(digits) => [Byte(OctalValue(digits))]
    case Break(_) => ""
  }

  function Bytes(ps: seq<Piece>): string {
    if ps == [] then "" else PieceBytes(ps[0]) + Bytes(ps[1..])
  }

  predicate Starts(s: string, c: char) {
    s != [] && s[0] == c
  }

  /** A piece reads as it is meant: what is after it is no part of it. */
  predicate Allowed(p: Piece, rest: string) {
    match p
    case Plain(c) => c != '\\'
    case Escape(e) => !IsOctal(e) && e != '\r' && e != '\n'
    case Octal(digits) =>
      1 <= |digits| <= 3 && (forall i | 0 <= i < |digits| :: IsOctal(digits[i]))
      && (|digits| < 3 && rest != [] ==> !IsOctal(rest[0]))
    case Break(eol) => eol == "\n" || eol == "\r\n" || (eol == "\r" && !Starts(rest, '\n'))
  }

  /** How many parentheses are open after a piece, from so many. */
  function Deeper(p: Piece, depth: nat): int {
    if p == Plain('(') then depth + 1 else if p == Plain(')') then depth - 1 else depth
  }

  /** The pieces are allowed, and their parentheses balance. */
  predicate Permitted(ps: seq<Piece>, depth: nat, rest: string) {
    if ps == [] then depth == 1
    else
      Allowed(ps[0], Written(ps[1..], rest))
      && (ps[0] == Plain(')') ==> depth > 1)
      && Permitted(ps[1..], Deeper(ps[0], depth), rest)
  }

  lemma {:induction false} OctalReads(digits: string, n: nat, rest: string)
    requires |digits| <= n && forall i | 0 <= i < |digits| :: IsOctal(digits[i])
    requires |digits| < n && rest != [] ==> !IsOctal(rest[0])
    ensures OctalRun(digits + rest, n) == |digits|
  {
    if digits == [] {
      assert digits + rest == rest;
    } else {
      assert (digits + rest)[1..] == digits[1..] + rest;
      OctalReads(digits[1..], n - 1, rest);
    }
  }

  /** A read with some bytes before it. */
  function After(bytes: string, r: Read<string>): Read<string> {
    Read(bytes + r.value, r.rest)
  }

  lemma OctalPieceReads(digits: string, rest: string, depth: nat)
    requires Allowed(Octal(digits), rest) && depth > 0
    ensures Literal(['\\'] + (digits + rest), depth) == After([Byte(OctalValue(digits))], Literal(rest, depth))
  {
    Cons('\\', digits + rest);
    OctalEscape(digits, rest, depth);
  }

  lemma OctalEscape(digits: string, rest: string, depth: nat)
    requires Allowed(Octal(digits), rest)
    ensures digits + rest != ""
    ensures EscapeAt(digits + rest, depth) == Turn(Some(Byte(OctalValue(digits))), depth, rest)
  {
    var s := digits + rest;
    assert s[0] == digits[0] && s[1..] == digits[1..] + rest;
    OctalReads(digits[1..], 2, rest);
    assert s[..|digits|] == digits && s[|digits|..] == rest;
  }

  lemma BreakReads(eol: string, rest: string, depth: nat)
    requires Allowed(Break(eol), rest) && depth > 0
    ensures Literal(['\\'] + (eol + rest), depth) == Literal(rest, depth)
  {
    var s := eol + rest;
    Cons('\\', s);
    assert s[0] == eol[0];
    if eol == "\r\n" {
      assert s[1] == '\n' && s[2..] == rest;
    } else {
      assert s[1..] == rest;
    }
  }

  lemma EscapeReads(e: char, rest: string, depth: nat)
    requires Allowed(Escape(e), rest) && depth > 0
    ensures Literal(['\\'] + ([e] + rest), depth) == After([Escaped(e)], Literal(rest, depth))
  {
    Cons('\\', [e] + rest);
    Cons(e, rest);
  }

  lemma PieceReads(p: Piece, rest: string, depth: nat)
    requires Allowed(p, rest) && p != Plain('(') && p != Plain(')') && depth > 0
    ensures Literal(PieceText(p, rest), depth) == After(PieceBytes(p), Literal(rest, depth))
  {
    match p
    case Plain(c) => Cons(c, rest);
    case Escape(e) => EscapeReads(e, rest, depth);
    case Octal(digits) => OctalPieceReads(digits, rest, depth);
    case Break(eol) =>
      BreakReads(eol, rest, depth);
      assert "" + Literal(rest, depth).value == Literal(rest, depth).value;
  }

  /** However a string is written as a literal, it is read back, up to just after its closing parenthesis. */
  lemma {:induction false} LiteralReads(ps: seq<Piece>, depth: nat, tail: string)
    requires depth > 0 && Permitted(ps, depth, [')'] + tail)
    ensures Literal(Written(ps, [')'] + tail), depth) == Read(Bytes(ps), tail)
  {
    if ps == [] {
      Cons(')', tail);
    } else {
      var rest := Written(ps[1..], [')'] + tail);
      Cons(ps[0], ps[1..]);
      if ps[0] == Plain('(') {
        Cons('(', rest);
        LiteralReads(ps[1..], depth + 1, tail);
      } else if ps[0] == Plain(')') {
        Cons(')', rest);
        LiteralReads(ps[1..], depth - 1, tail);
      } else {
        PieceReads(ps[0], rest, depth);
        LiteralReads(ps[1..], depth, tail);
      }
    }
  }

  /** Every string of bytes has such a writing: three octal digits a byte. */
  function InOctal(bytes: string): seq<Piece> {
    if bytes == [] then [] else [Octal(ThreeDigits(bytes[0] as int))] + InOctal(bytes[1..])
  }

  function OctalDigit(n: nat): char {
    ('0' as int + n % 8) as char
  }

  function ThreeDigits(n: nat): string {
    [OctalDigit(n / 64), OctalDigit(n / 8), OctalDigit(n)]
  }

  lemma ThreeDigitsRead(n: nat)
    requires n < 256
    ensures OctalValue(ThreeDigits(n)) == n
  {
    var d := ThreeDigits(n);
    assert d[..2][..1][..0] == "" && d[..2][0] == d[0] && d[..2][1] == d[1] && d[..2][..1][0] == d[0];
    assert OctalValue(d[..2][..1]) == n / 64 % 8;
    assert OctalValue(d[..2]) == 8 * (n / 64 % 8) + n / 8 % 8;
  }

  lemma OneByteWrites(c: char, rest: string)
    requires c < 256 as char
    ensures Allowed(Octal(ThreeDigits(c as int)), rest) && PieceBytes(Octal(ThreeDigits(c as int))) == [c]
  {
    ThreeDigitsRead(c as int);
  }

  lemma {:induction false} EveryStringWrites(bytes: string, rest: string)
    requires forall i | 0 <= i < |bytes| :: bytes[i] < 256 as char
    ensures Permitted(InOctal(bytes), 1, rest) && Bytes(InOctal(bytes)) == bytes
  {
    if bytes != [] {
      EveryStringWrites(bytes[1..], rest);
      OneByteWrites(bytes[0], Written(InOctal(bytes[1..]), rest));
      Cons(Octal(ThreeDigits(bytes[0] as int)), InOctal(bytes[1..]));
      Uncons(bytes);
    }
  }

  /** The standard reads an end of line that is not escaped as a line feed (ISO 32000-1, section 7.3.4.2). */
  function StandardBytes(ps: seq<Piece>): string {
    if ps == [] then ""
    else if ps[0] == Plain('\r') then
      "\n" + StandardBytes(if |ps| > 1 && ps[1] == Plain('\n') then ps[2..] else ps[1..])
    else PieceBytes(ps[0]) + StandardBytes(ps[1..])
  }

  /** The reader keeps it, so it reads as the standard says exactly where no carriage return is bare. */
  lemma {:induction false} StandardUnlessReturn(ps: seq<Piece>)
    ensures Bytes(ps) == StandardBytes(ps) <==> Plain('\r') !in ps
  {
    if ps != [] {
      assert ps == [ps[0]] + ps[1..];
      if ps[0] == Plain('\r') {
        assert Bytes(ps)[0] == '\r' && StandardBytes(ps)[0] == '\n';
      } else {
        StandardUnlessReturn(ps[1..]);
        Cancel(PieceBytes(ps[0]), Bytes(ps[1..]), StandardBytes(ps[1..]));
      }
    }
  }

  lemma Cancel<T>(a: seq<T>, b: seq<T>, c: seq<T>)
    ensures a + b == a + c <==> b == c
  {
    assert (a + b)[|a|..] == b && (a + c)[|a|..] == c;
  }

  // ------------------------------------------------------------ hex strings

  function Nibbles(t: string): seq<nat> {
    if t == [] then []
    else match HexDigit(t[0]) case None => Nibbles(t[1..]) case Some(n) => [n] + Nibbles(t[1..])
  }

  function PairUp(ns: seq<nat>): string {
    if ns == [] then ""
    else if |ns| == 1 then [Pair(ns[0], 0)]
    else [Pair(ns[0], ns[1])] + PairUp(ns[2..])
  }

  function NibblesOf(bytes: string): seq<nat> {
    if bytes == [] then [] else [bytes[0] as int / 16, bytes[0] as int % 16] + NibblesOf(bytes[1..])
  }

  lemma NibblesJoin(c: char)
    requires c < 256 as char
    ensures Pair(c as int / 16, c as int % 16) == c
  {
  }

  lemma PairUpTwo(a: nat, b: nat, more: seq<nat>)
    ensures PairUp([a, b] + more) == [Pair(a, b)] + PairUp(more)
  {
    assert ([a, b] + more)[2..] == more;
  }

  lemma {:induction false} PairUpNibbles(bytes: string)
    requires forall i | 0 <= i < |bytes| :: bytes[i] < 256 as char
    ensures PairUp(NibblesOf(bytes)) == bytes
  {
    if bytes != [] {
      PairUpNibbles(bytes[1..]);
      NibblesJoin(bytes[0]);
      PairUpTwo(bytes[0] as int / 16, bytes[0] as int % 16, NibblesOf(bytes[1..]));
      Uncons(bytes);
    }
  }

  lemma {:induction false} PairUpOdd(ns: seq<nat>)
    requires |ns| % 2 == 1
    ensures PairUp(ns) == PairUp(ns + [0])
  {
    if |ns| == 1 {
      assert (ns + [0])[2..] == [];
    } else {
      assert (ns + [0])[2..] == ns[2..] + [0];
      PairUpOdd(ns[2..]);
    }
  }

  lemma {:induction false} HexPairs(t: string, half: Option<nat>, tail: string)
    requires '>' !in t
    ensures Hex(t + (['>'] + tail), half)
         == Read(PairUp((if half.Some? then [half.value] else []) + Nibbles(t)), tail)
  {
    var s := t + (['>'] + tail);
    if t == [] {
      assert s == ['>'] + tail;
      Cons('>', tail);
      if half.Some? { assert [half.value] + Nibbles(t) == [half.value]; }
    } else {
      assert s[1..] == t[1..] + (['>'] + tail);
      var n, more := HexDigit(t[0]), Nibbles(t[1..]);
      if n == None {
        HexPairs(t[1..], half, tail);
      } else if half.Some? {
        HexPairs(t[1..], None, tail);
        assert [half.value] + ([n.value] + more) == [half.value, n.value] + more;
        assert ([half.value, n.value] + more)[2..] == more;
        assert [] + more == more;
      } else {
        HexPairs(t[1..], n, tail);
        assert [] + ([n.value] + more) == [n.value] + more;
      }
    }
  }

  /** The text has the digits of the bytes, of either case, the last one left out perhaps when it is zero. */
  predicate WrittenInHex(t: string, bytes: string) {
    '>' !in t && (forall i | 0 <= i < |bytes| :: bytes[i] < 256 as char)
    && (Nibbles(t) == NibblesOf(bytes) || (|Nibbles(t)| % 2 == 1 && Nibbles(t) + [0] == NibblesOf(bytes)))
  }

  /** However a string is written in hex, it is read back, up to just after its closing bracket. */
  lemma HexReads(t: string, bytes: string, tail: string)
    requires WrittenInHex(t, bytes)
    ensures Hex(t + (['>'] + tail), None) == Read(bytes, tail)
  {
    HexPairs(t, None, tail);
    assert [] + Nibbles(t) == Nibbles(t);
    if Nibbles(t) != NibblesOf(bytes) { PairUpOdd(Nibbles(t)); }
    PairUpNibbles(bytes);
  }

  // --------------------------------------------------- writings of a stream

  /** A piece of a name: a character, or two hex digits. */
  datatype NamePiece = Letter(c: char) | Code(hi: char, lo: char)

  function NamePieceText(p: NamePiece, rest: string): string {
    match p
    case Letter(c) => [c] + rest
    case Code(hi, lo) => ['#', hi, lo] + rest
  }

  function NameWritten(ps: seq<NamePiece>, rest: string): string {
    if ps == [] then rest else NamePieceText(ps[0], NameWritten(ps[1..], rest))
  }

  function NameBytes(ps: seq<NamePiece>): string {
    if ps == [] then ""
    else
      (match ps[0]
       case Letter(c) => [c]
       case Code(hi, lo) => [Pair(HexValue(hi), HexValue(lo))])
      + NameBytes(ps[1..])
  }

  predicate NameAllowed(ps: seq<NamePiece>) {
    ps == []
    || (NameAllowed(ps[1..])
        && match ps[0]
           case Letter(c) => IsRegular(c) && c != '#'
           case Code(hi, lo) => HexDigit(hi).Some? && HexDigit(lo).Some?)
  }

  /** What may follow a name or a word: what is no part of it. */
  predicate Ends(rest: string) {
    rest != [] ==> !IsRegular(rest[0])
  }

  lemma LetterReads(c: char, rest: string)
    requires IsRegular(c) && c != '#'
    ensures NameText([c] + rest) == Prepend(c, NameText(rest))
  {
    Cons(c, rest);
  }

  lemma CodeReads(hi: char, lo: char, rest: string)
    requires HexDigit(hi).Some? && HexDigit(lo).Some?
    ensures NameText(['#', hi, lo] + rest) == Prepend(Pair(HexValue(hi), HexValue(lo)), NameText(rest))
  {
    var s := ['#', hi, lo] + rest;
    assert s[0] == '#' && s[1] == hi && s[2] == lo && s[3..] == rest;
  }

  lemma {:induction false} NameReads(ps: seq<NamePiece>, rest: string)
    requires NameAllowed(ps) && Ends(rest)
    ensures NameText(NameWritten(ps, rest)) == Read(NameBytes(ps), rest)
  {
    if ps != [] {
      var more := NameWritten(ps[1..], rest);
      NameReads(ps[1..], rest);
      match ps[0]
      case Letter(c) => LetterReads(c, more);
      case Code(hi, lo) => CodeReads(hi, lo, more);
    }
  }

  lemma {:induction false} WordReads(word: string, rest: string)
    requires (forall i | 0 <= i < |word| :: IsRegular(word[i])) && Ends(rest)
    ensures Word(word + rest) == Read(word, rest)
  {
    if word == [] {
      assert word + rest == rest;
    } else {
      assert (word + rest)[1..] == word[1..] + rest;
      WordReads(word[1..], rest);
      assert [word[0]] + word[1..] == word;
    }
  }

  /** What may stand between tokens: a space, or a comment and the end of its line. */
  datatype Blank = Space(c: char) | Comment(text: string, eol: char)

  type Gap = seq<Blank>

  function BlankText(b: Blank, rest: string): string {
    match b
    case Space(c) => [c] + rest
    case Comment(text, eol) => ['%'] + (text + ([eol] + rest))
  }

  function GapText(gap: Gap, rest: string): string {
    if gap == [] then rest else BlankText(gap[0], GapText(gap[1..], rest))
  }

  predicate IsEol(c: char) {
    c == '\n' || c == '\r'
  }

  predicate IsBlank(b: Blank) {
    match b
    case Space(c) => IsSpace(c)
    case Comment(text, eol) => IsEol(eol) && forall c <- text :: !IsEol(c)
  }

  predicate IsGap(gap: Gap) {
    gap == [] || (IsBlank(gap[0]) && IsGap(gap[1..]))
  }

  predicate AllSpace(gap: Gap) {
    gap == [] || (gap[0].Space? && AllSpace(gap[1..]))
  }

  /** A string's text, from inside so many parentheses, has the one that closes it. */
  predicate Closes(s: string, depth: nat)
    decreases |s|
  {
    s != "" && var t := TurnAt(s, depth); t.depth == 0 || Closes(t.rest, t.depth)
  }

  /** A text starts with a string that does not end in it. */
  predicate LeavesOpen(s: string)
    requires s != ""
  {
    (s[0] == '(' && !Closes(s[1..], 1)) || (s[0] == '<' && !(|s| > 1 && s[1] == '<') && '>' !in s[1..])
  }

  /** How deep a text leaves the brackets; none when it closes them before its end, or may take more as its own. */
  function Level(s: string, depth: nat): Option<nat>
    decreases |s|
  {
    if s == "" then Some(depth)
    else if depth == 0 || s == ">" || LeavesOpen(s) then None
    else Level(DictTurn(s, depth).1, DictTurn(s, depth).0)
  }

  /** A text closes the strings and brackets it opens, and no others. */
  predicate Balanced(s: string) {
    Level(s, 1) == Some(1)
  }

  /** An operand, as it may be written. */
  datatype Node =
    | WordNode(word: string)
    | KeywordNode(word: string)
    | LiteralNode(pieces: seq<Piece>)
    | HexNode(digits: string, bytes: string)
    | NameNode(name: seq<NamePiece>)
    | ArrayNode(items: Nodes)
    | DictNode(entries: Nodes)

  /** Nodes with a gap before each, and one after them all. */
  datatype Nodes = NoNodes(last: Gap) | Nodes(gap: Gap, head: Node, tail: Nodes)

  function NodeText(n: Node, rest: string): string {
    match n
    case WordNode(word) => word + rest
    case KeywordNode(word) => word + rest
    case LiteralNode(ps) => ['('] + Written(ps, [')'] + rest)
    case HexNode(digits, _) => ['<'] + (digits + (['>'] + rest))
    case NameNode(ps) => ['/'] + NameWritten(ps, rest)
    case ArrayNode(items) => ['['] + NodesText(items, [']'] + rest)
    case DictNode(entries) => ['<'] + (['<'] + NodesText(entries, ['>'] + (['>'] + rest)))
  }

  function NodesText(ns: Nodes, rest: string): string {
    match ns
    case NoNodes(last) => GapText(last, rest)
    case Nodes(gap, head, tail) => GapText(gap, NodeText(head, NodesText(tail, rest)))
  }

  function LastGap(ns: Nodes): Gap {
    match ns case NoNodes(last) => last case Nodes(_, _, tail) => LastGap(tail)
  }

  function NodeValue(n: Node): Value {
    match n
    case WordNode(word) => Number(word)
    case KeywordNode(_) => Nothing
    case LiteralNode(ps) => Text(Bytes(ps))
    case HexNode(_, bytes) => Text(bytes)
    case NameNode(ps) => Name(NameBytes(ps))
    case ArrayNode(items) => Array(ItemValues(items))
    case DictNode(_) => Nothing
  }

  function NodeToken(n: Node): Token {
    if n.KeywordNode? then Operator(n.word) else Operand(NodeValue(n))
  }

  function NodeValues(ns: Nodes): seq<Value> {
    match ns case NoNodes(_) => [] case Nodes(_, head, tail) => [NodeValue(head)] + NodeValues(tail)
  }

  /** What is read of the items of an array: true, false and null are left out. */
  function ItemValues(ns: Nodes): seq<Value> {
    match ns
    case NoNodes(_) => []
    case Nodes(_, head, tail) => (if head.KeywordNode? then [] else [NodeValue(head)]) + ItemValues(tail)
  }

  predicate NoKeyword(ns: Nodes) {
    match ns case NoNodes(_) => true case Nodes(_, head, tail) => !head.KeywordNode? && NoKeyword(tail)
  }

  predicate IsKeyword(word: string) {
    word in ["true", "false", "null"]
  }

  predicate AllRegular(word: string) {
    forall i | 0 <= i < |word| :: IsRegular(word[i])
  }

  predicate GoodHex(digits: string, bytes: string) {
    WrittenInHex(digits, bytes)
    && forall i | 0 <= i < |digits| :: HexDigit(digits[i]).Some? || IsSpace(digits[i])
  }

  /** A node is written well, before some text, as an operand: a name or a word ends before what follows. */
  predicate Good(n: Node, rest: string, number: Words) {
    match n
    case WordNode(word) => word != "" && AllRegular(word) && number(word) && Ends(rest)
    case KeywordNode(word) => IsKeyword(word) && !number(word) && Ends(rest)
    case LiteralNode(ps) => Permitted(ps, 1, [')'] + rest)
    case HexNode(digits, bytes) => GoodHex(digits, bytes)
    case NameNode(ps) => NameAllowed(ps) && Ends(rest)
    case ArrayNode(items) => AllGood(items, [']'] + rest, number) && AllSpace(LastGap(items))
    case DictNode(entries) => Balanced(NodesText(entries, ""))
  }

  predicate AllGood(ns: Nodes, rest: string, number: Words) {
    match ns
    case NoNodes(last) => IsGap(last)
    case Nodes(gap, head, tail) =>
      IsGap(gap) && Good(head, NodesText(tail, rest), number) && AllGood(tail, rest, number)
  }

  /** A node is written well inside a dictionary: any word will do. */
  predicate Skipped(n: Node) {
    match n
    case WordNode(word) => AllRegular(word)
    case KeywordNode(word) => AllRegular(word)
    case LiteralNode(ps) => Permitted(ps, 1, ")")
    case HexNode(digits, bytes) => GoodHex(digits, bytes)
    case NameNode(ps) => NameAllowed(ps)
    case ArrayNode(items) => AllSkipped(items)
    case DictNode(entries) => AllSkipped(entries)
  }

  /** So are all, and each comment closes what it opens. */
  predicate AllSkipped(ns: Nodes) {
    match ns
    case NoNodes(last) => IsGap(last) && Balanced(GapText(last, ""))
    case Nodes(gap, head, tail) => IsGap(gap) && Balanced(GapText(gap, "")) && Skipped(head) && AllSkipped(tail)
  }

  // ------------------------------------------------------- skipping a dictionary

  lemma {:induction false} SkipsRegular(word: string, rest: string, depth: nat)
    requires AllRegular(word)
    ensures depth > 0 ==> AfterDict(word + rest, depth) == AfterDict(rest, depth)
  {
    if word == [] {
      assert word + rest == rest;
    } else {
      assert (word + rest)[1..] == word[1..] + rest;
      SkipsRegular(word[1..], rest, depth);
    }
  }

  // ----------------------------------------------- any text inside a dictionary

  lemma {:induction false} OctalRunMore(s: string, n: nat, rest: string)
    requires OctalRun(s, n) < |s|
    ensures OctalRun(s + rest, n) == OctalRun(s, n)
  {
    if n > 0 && IsOctal(s[0]) {
      assert (s + rest)[1..] == s[1..] + rest;
      OctalRunMore(s[1..], n - 1, rest);
    }
  }

  /** An escape that leaves something reads the same whatever is after that. */
  lemma EscapeMore(s: string, depth: nat, rest: string)
    requires s != "" && EscapeAt(s, depth).rest != ""
    ensures EscapeAt(s + rest, depth) == EscapeAt(s, depth).(rest := EscapeAt(s, depth).rest + rest)
  {
    var t := s + rest;
    assert t[1..] == s[1..] + rest && (|s| > 1 ==> t[1] == s[1] && t[2..] == s[2..] + rest);
    if IsOctal(s[0]) {
      var k := 1 + OctalRun(s[1..], 2);
      OctalRunMore(s[1..], 2, rest);
      assert t[..k] == s[..k] && t[k..] == s[k..] + rest;
    }
  }

  lemma TurnMore(s: string, depth: nat, rest: string)
    requires s != "" && (TurnAt(s, depth).rest != "" || s[0] == ')')
    ensures TurnAt(s + rest, depth) == TurnAt(s, depth).(rest := TurnAt(s, depth).rest + rest)
  {
    assert (s + rest)[1..] == s[1..] + rest;
    if s[0] == '\\' {
      EscapeMore(s[1..], depth, rest);
    }
  }

  /** So does a string that ends. */
  lemma {:induction false} LiteralMore(s: string, depth: nat, rest: string)
    requires Closes(s, depth) && depth > 0
    ensures Literal(s + rest, depth).rest == Literal(s, depth).rest + rest
    decreases |s|
  {
    TurnMore(s, depth, rest);
    var t := TurnAt(s, depth);
    if t.depth > 0 { LiteralMore(t.rest, t.depth, rest); }
  }

  lemma {:induction false} HexMore(s: string, half: Option<nat>, rest: string)
    requires '>' in s
    ensures Hex(s + rest, half).rest == Hex(s, half).rest + rest
    decreases |s|
  {
    assert (s + rest)[1..] == s[1..] + rest;
    if s[0] != '>' {
      Uncons(s);
      match HexDigit(s[0])
      case None => HexMore(s[1..], half, rest);
      case Some(n) => HexMore(s[1..], if half.Some? then None else Some(n), rest);
    }
  }

  lemma DictTurnMore(s: string, depth: nat, rest: string)
    requires s != "" && depth > 0 && s != ">" && !LeavesOpen(s)
    ensures DictTurn(s + rest, depth) == (DictTurn(s, depth).0, DictTurn(s, depth).1 + rest)
  {
    var t := s + rest;
    assert t[1..] == s[1..] + rest && (|s| > 1 ==> t[1] == s[1] && t[2..] == s[2..] + rest);
    if s[0] == '(' {
      LiteralMore(s[1..], 1, rest);
    } else if s[0] == '<' && !(|s| > 1 && s[1] == '<') {
      HexMore(s[1..], None, rest);
    }
  }

  /** A text that leaves brackets at some level is skipped, whatever is after it. */
  lemma {:induction false} LevelSkips(s: string, depth: nat, rest: string)
    requires Level(s, depth).Some?
    ensures AfterDict(s + rest, depth) == AfterDict(rest, Level(s, depth).value)
    decreases |s|
  {
    if s == "" {
      assert s + rest == rest;
    } else {
      DictTurnMore(s, depth, rest);
      LevelSkips(DictTurn(s, depth).1, DictTurn(s, depth).0, rest);
    }
  }

  lemma {:induction false} LevelDeeper(s: string, depth: nat)
    requires Level(s, depth).Some?
    ensures Level(s, depth + 1) == Some(Level(s, depth).value + 1)
    decreases |s|
  {
    if s != "" {
      var t := DictTurn(s, depth);
      DictTurnDeeper(s, depth);
      LevelTurn(s, depth, t.0, t.1);
      LevelTurn(s, depth + 1, t.0 + 1, t.1);
      LevelDeeper(t.1, t.0);
    }
  }

  lemma LevelTurn(s: string, depth: nat, then_: nat, left: string)
    requires s != "" && depth > 0 && s != ">" && !LeavesOpen(s) && DictTurn(s, depth) == (then_, left)
    ensures Level(s, depth) == Level(left, then_)
  {}

  lemma DictTurnDeeper(s: string, depth: nat)
    requires s != "" && depth > 0
    ensures DictTurn(s, depth + 1) == (DictTurn(s, depth).0 + 1, DictTurn(s, depth).1)
  {}

  lemma {:induction false} LevelFrom(s: string, depth: nat)
    requires depth > 0 && Balanced(s)
    ensures Level(s, depth) == Some(depth)
  {
    if depth > 1 {
      LevelFrom(s, depth - 1);
      LevelDeeper(s, depth - 1);
    }
  }

  lemma SkipsBalanced(s: string, rest: string, depth: nat)
    requires Balanced(s) && depth > 0
    ensures AfterDict(s + rest, depth) == AfterDict(rest, depth)
  {
    LevelFrom(s, depth);
    LevelSkips(s, depth, rest);
  }

  const CLOSED := ">>Q"

  /** Nothing closes a string here. */
  lemma {:induction false} NeverClosed(s: string, depth: nat)
    requires depth > 0 && s in {CLOSED, ">Q", "Q", ""}
    ensures Literal(s, depth).rest == ""
    decreases |s|
  {
    assert CLOSED[1..] == ">Q" && ">Q"[1..] == "Q" && "Q"[1..] == "";
    if s != "" { NeverClosed(s[1..], depth); }
  }

  /** A string that a text leaves open goes on in what is after it. */
  lemma {:induction false} LiteralOpen(s: string, depth: nat)
    requires depth > 0 && !Closes(s, depth)
    ensures Literal(s + CLOSED, depth).rest == ""
    decreases |s|
  {
    if s == "" {
      assert s + CLOSED == CLOSED;
      NeverClosed(CLOSED, depth);
    } else {
      var t := TurnAt(s, depth);
      if t.rest != "" {
        TurnMore(s, depth, CLOSED);
        LiteralOpen(t.rest, t.depth);
      } else {
        LastTurn(s, depth);
        NeverClosed(TurnAt(s + CLOSED, depth).rest, t.depth);
      }
    }
  }

  /** A turn that takes the last of a text takes one more character at most, and that opens or closes nothing. */
  lemma LastTurn(s: string, depth: nat)
    requires s != "" && TurnAt(s, depth).rest == ""
    ensures var t := TurnAt(s + CLOSED, depth); t.rest in {CLOSED, ">Q"} && t.depth == TurnAt(s, depth).depth
  {
    var t := s + CLOSED;
    assert t[1..] == s[1..] + CLOSED && CLOSED[1..] == ">Q";
    if s[0] == '\\' {
      if |s| == 1 {
        assert t[1..] == CLOSED;
      } else {
        LastEscape(s[1..], depth);
      }
    } else {
      assert |s| == 1 && t[1..] == CLOSED;
    }
  }

  lemma LastEscape(e: string, depth: nat)
    requires e != "" && EscapeAt(e, depth).rest == ""
    ensures EscapeAt(e + CLOSED, depth).rest == CLOSED && EscapeAt(e + CLOSED, depth).depth == depth
  {
    if IsOctal(e[0]) {
      var k := OctalRun(e[1..], 2);
      assert k == |e| - 1;
      OctalReads(e[1..], 2, CLOSED);
      assert (e + CLOSED)[1..] == e[1..] + CLOSED && (e + CLOSED)[k + 1..] == CLOSED;
    } else if e == "\r\n" {
      assert (e + CLOSED)[2..] == CLOSED;
    } else {
      assert |e| == 1 && (e + CLOSED)[1..] == CLOSED && (e + CLOSED)[1] == '>';
    }
  }

  lemma {:induction false} HexOpen(s: string, half: Option<nat>)
    requires '>' !in s
    ensures Hex(s + CLOSED, half).rest == ">Q"
    decreases |s|
  {
    if s == "" {
      assert s + CLOSED == CLOSED && CLOSED[1..] == ">Q";
    } else {
      assert (s + CLOSED)[1..] == s[1..] + CLOSED && s[0] in s && forall c <- s[1..] :: c in s;
      match HexDigit(s[0])
      case None => HexOpen(s[1..], half);
      case Some(n) => HexOpen(s[1..], if half.Some? then None else Some(n));
    }
  }

  lemma ClosedEnds(depth: nat)
    ensures AfterDict(CLOSED, depth) == "Q" <==> depth == 1
    ensures AfterDict(">Q", depth) != "Q"
  {
    assert CLOSED[2..] == "Q" && ">Q"[1..] == "Q" && "Q"[1..] == "";
    if depth > 0 {
      assert AfterDict("", depth) == "" && AfterDict("Q", depth) == "";
      assert depth > 1 ==> AfterDict("Q", depth - 1) == AfterDict("", depth - 1) == "";
    }
  }

  /** Another text closes the dictionary, or takes what does. */
  lemma {:induction false} OtherSkips(s: string, depth: nat)
    requires Level(s, depth) != Some(1)
    ensures AfterDict(s + CLOSED, depth) != "Q"
    decreases |s|
  {
    ClosedEnds(depth);
    if s == "" {
      assert s + CLOSED == CLOSED;
    } else if depth > 0 {
      if s == ">" {
        LastBracket(depth);
      } else if LeavesOpen(s) {
        OpenSkips(s, depth);
      } else {
        DictTurnMore(s, depth, CLOSED);
        OtherSkips(DictTurn(s, depth).1, DictTurn(s, depth).0);
      }
    }
  }

  lemma LastBracket(depth: nat)
    requires depth > 0
    ensures AfterDict(">" + CLOSED, depth) != "Q"
  {
    assert (">" + CLOSED)[2..] == ">Q";
    ClosedEnds(depth - 1);
  }

  lemma OpenSkips(s: string, depth: nat)
    requires s != "" && depth > 0 && LeavesOpen(s)
    ensures AfterDict(s + CLOSED, depth) != "Q"
  {
    var t := s + CLOSED;
    assert t[1..] == s[1..] + CLOSED;
    ClosedEnds(depth);
    if s[0] == '(' {
      LiteralOpen(s[1..], 1);
    } else {
      assert |s| > 1 ==> t[1] == s[1];
      HexOpen(s[1..], None);
    }
  }

  lemma {:induction false} GapJoins(gap: Gap, rest: string)
    ensures GapText(gap, rest) == GapText(gap, "") + rest
  {
    if gap == [] {
      assert "" + rest == rest;
    } else {
      var more := GapText(gap[1..], "");
      GapJoins(gap[1..], rest);
      match gap[0]
      case Space(c) => Assoc([c], more, rest);
      case Comment(text, eol) =>
        Assoc([eol], more, rest);
        Assoc(text, [eol] + more, rest);
        Assoc(['%'], text + ([eol] + more), rest);
    }
  }

  lemma SkipsGap(gap: Gap, rest: string, depth: nat)
    requires Balanced(GapText(gap, "")) && depth > 0
    ensures AfterDict(GapText(gap, rest), depth) == AfterDict(rest, depth)
  {
    GapJoins(gap, rest);
    SkipsBalanced(GapText(gap, ""), rest, depth);
  }

  lemma SkipsCode(hi: char, lo: char, rest: string, depth: nat)
    requires HexDigit(hi).Some? && HexDigit(lo).Some?
    ensures depth > 0 ==> AfterDict(['#', hi, lo] + rest, depth) == AfterDict(rest, depth)
  {
    SkipsRegular(['#', hi, lo], rest, depth);
  }

  lemma {:induction false} SkipsName(ps: seq<NamePiece>, rest: string, depth: nat)
    requires NameAllowed(ps) && depth > 0
    ensures AfterDict(NameWritten(ps, rest), depth) == AfterDict(rest, depth)
  {
    if ps != [] {
      var more := NameWritten(ps[1..], rest);
      SkipsName(ps[1..], rest, depth);
      match ps[0]
      case Letter(c) => SkipsOne(c, more, depth);
      case Code(hi, lo) => SkipsCode(hi, lo, more, depth);
    }
  }

  lemma SkipsOne(c: char, rest: string, depth: nat)
    requires depth > 0 && c != '(' && c != '<' && c != '>'
    ensures AfterDict([c] + rest, depth) == AfterDict(rest, depth)
  {
    Cons(c, rest);
  }

  lemma HexNodeReads(digits: string, bytes: string, rest: string)
    requires GoodHex(digits, bytes)
    ensures var s := NodeText(HexNode(digits, bytes), rest);
      s[0] == '<' && |s| > 1 && s[1] != '<' && Hex(s[1..], None) == Read(bytes, rest)
  {
    var t := digits + (['>'] + rest);
    Cons('<', t);
    HexReads(digits, bytes, rest);
    assert t[0] == if digits == "" then '>' else digits[0];
  }

  lemma {:induction false} PermittedAnywhere(ps: seq<Piece>, depth: nat, rest: string)
    requires Permitted(ps, depth, ")")
    ensures Permitted(ps, depth, [')'] + rest)
    ensures Written(ps, [')'] + rest)[..1] == Written(ps, ")")[..1]
    decreases |ps|
  {
    if ps != [] {
      PermittedAnywhere(ps[1..], Deeper(ps[0], depth), rest);
    }
  }

  lemma {:induction false} SkipsNode(n: Node, rest: string, depth: nat)
    requires Skipped(n) && depth > 0
    ensures AfterDict(NodeText(n, rest), depth) == AfterDict(rest, depth)
    decreases n
  {
    match n
    case WordNode(word) => SkipsRegular(word, rest, depth);
    case KeywordNode(word) => SkipsRegular(word, rest, depth);
    case LiteralNode(ps) =>
      PermittedAnywhere(ps, 1, rest);
      LiteralReads(ps, 1, rest);
      Cons('(', Written(ps, [')'] + rest));
    case HexNode(digits, bytes) => HexNodeReads(digits, bytes, rest);
    case NameNode(ps) =>
      SkipsOne('/', NameWritten(ps, rest), depth);
      SkipsName(ps, rest, depth);
    case ArrayNode(items) =>
      SkipsOne('[', NodesText(items, [']'] + rest), depth);
      SkipsNodes(items, [']'] + rest, depth);
      SkipsOne(']', rest, depth);
    case DictNode(entries) =>
      SkipsOpen(NodesText(entries, ['>'] + (['>'] + rest)), depth);
      SkipsNodes(entries, ['>'] + (['>'] + rest), depth + 1);
      SkipsClose(rest, depth + 1);
  }

  lemma {:induction false} SkipsNodes(ns: Nodes, rest: string, depth: nat)
    requires AllSkipped(ns) && depth > 0
    ensures AfterDict(NodesText(ns, rest), depth) == AfterDict(rest, depth)
    decreases ns
  {
    match ns
    case NoNodes(last) => SkipsGap(last, rest, depth);
    case Nodes(gap, head, tail) =>
      SkipsGap(gap, NodeText(head, NodesText(tail, rest)), depth);
      SkipsNode(head, NodesText(tail, rest), depth);
      SkipsNodes(tail, rest, depth);
  }

  lemma SkipsOpen(rest: string, depth: nat)
    requires depth > 0
    ensures AfterDict(['<'] + (['<'] + rest), depth) == AfterDict(rest, depth + 1)
  {
    var s := ['<'] + (['<'] + rest);
    assert s[0] == '<' == s[1] && s[2..] == rest;
  }

  lemma SkipsClose(rest: string, depth: nat)
    requires depth > 0
    ensures AfterDict(['>'] + (['>'] + rest), depth) == AfterDict(rest, depth - 1)
  {
    var s := ['>'] + (['>'] + rest);
    assert s[0] == '>' == s[1] && s[2..] == rest;
  }

  // ----------------------------------------------------------- a dictionary's body

  lemma {:induction false} WrittenJoins(ps: seq<Piece>, rest: string)
    ensures Written(ps, rest) == Written(ps, "") + rest
  {
    if ps == [] {
      assert "" + rest == rest;
    } else {
      var more := Written(ps[1..], "");
      WrittenJoins(ps[1..], rest);
      match ps[0]
      case Plain(c) => Assoc([c], more, rest);
      case Escape(e) =>
        Assoc([e], more, rest);
        Assoc(['\\'], [e] + more, rest);
      case Octal(digits) =>
        Assoc(digits, more, rest);
        Assoc(['\\'], digits + more, rest);
      case Break(eol) =>
        Assoc(eol, more, rest);
        Assoc(['\\'], eol + more, rest);
    }
  }

  lemma {:induction false} NameJoins(ps: seq<NamePiece>, rest: string)
    ensures NameWritten(ps, rest) == NameWritten(ps, "") + rest
  {
    if ps == [] {
      assert "" + rest == rest;
    } else {
      NameJoins(ps[1..], rest);
      match ps[0]
      case Letter(c) => Assoc([c], NameWritten(ps[1..], ""), rest);
      case Code(hi, lo) => Assoc(['#', hi, lo], NameWritten(ps[1..], ""), rest);
    }
  }

  lemma {:induction false} NodeJoins(n: Node, rest: string)
    ensures NodeText(n, rest) == NodeText(n, "") + rest
    decreases n
  {
    match n
    case WordNode(word) => assert word + "" == word;
    case KeywordNode(word) => assert word + "" == word;
    case LiteralNode(ps) =>
      WrittenJoins(ps, [')'] + rest);
      WrittenJoins(ps, [')'] + "");
      JoinAfter("(", Written(ps, ""), ")", rest);
    case HexNode(digits, _) => JoinAfter("<", digits, ">", rest);
    case NameNode(ps) =>
      NameJoins(ps, rest);
      Assoc(['/'], NameWritten(ps, ""), rest);
    case ArrayNode(items) =>
      NodesJoin(items, [']'] + rest);
      NodesJoin(items, [']'] + "");
      JoinAfter("[", NodesText(items, ""), "]", rest);
    case DictNode(entries) =>
      NodesJoin(entries, ['>'] + (['>'] + rest));
      NodesJoin(entries, ">>");
      JoinDict(NodesText(entries, ""), rest);
  }

  lemma JoinAfter(open: string, text: string, close: string, rest: string)
    ensures open + (text + (close + rest)) == (open + (text + close)) + rest
    ensures open + (text + (close + "")) == open + (text + close)
  {
    assert close + "" == close;
    Assoc(text, close, rest);
    Assoc(open, text + close, rest);
  }

  lemma JoinDict(body: string, rest: string)
    ensures ['<'] + (['<'] + (body + (['>'] + (['>'] + rest)))) == (['<'] + (['<'] + (body + ">>"))) + rest
    ensures ['>'] + (['>'] + "") == ">>" && ['>'] + (['>'] + rest) == ">>" + rest
  {
    Assoc(body, ">>", rest);
    Assoc(['<'], body + ">>", rest);
    Assoc(['<'], ['<'] + (body + ">>"), rest);
  }

  lemma {:induction false} NodesJoin(ns: Nodes, rest: string)
    ensures NodesText(ns, rest) == NodesText(ns, "") + rest
    decreases ns
  {
    match ns
    case NoNodes(last) => GapJoins(last, rest);
    case Nodes(gap, head, tail) =>
      NodesJoin(tail, rest);
      NodeJoins(head, NodesText(tail, rest));
      NodeJoins(head, NodesText(tail, ""));
      GapJoins(gap, NodeText(head, NodesText(tail, rest)));
      GapJoins(gap, NodeText(head, NodesText(tail, "")));
      Assoc(NodeText(head, ""), NodesText(tail, ""), rest);
      Assoc(GapText(gap, ""), NodeText(head, NodesText(tail, "")), rest);
  }

  lemma BodySkips(s: string, rest: string)
    requires Balanced(s)
    ensures AfterDict(s + (">>" + rest), 1) == rest
  {
    SkipsBalanced(s, ">>" + rest, 1);
    assert (">>" + rest)[2..] == rest;
  }

  /**
   A dictionary is skipped with no regard for comments: of any text, written well or not, its end is found,
   before every text, exactly when it closes the strings and brackets it opens, and no others.
   */
  lemma BodySkippedWhenBalanced(s: string)
    ensures (forall rest: string :: AfterDict(s + (">>" + rest), 1) == rest) <==> Balanced(s)
  {
    if Balanced(s) {
      forall rest: string
        ensures AfterDict(s + (">>" + rest), 1) == rest
      {
        BodySkips(s, rest);
      }
    } else {
      OtherSkips(s, 1);
      assert CLOSED == ">>" + "Q";
    }
  }

  lemma DictStarts(entries: Nodes, rest: string, number: Words)
    ensures NextToken(NodeText(DictNode(entries), rest), number)
         == Read(Operand(Nothing), AfterDict(NodesText(entries, "") + (">>" + rest), 1))
  {
    var s := NodeText(DictNode(entries), rest);
    JoinDict(NodesText(entries, ""), rest);
    NodesJoin(entries, ">>" + rest);
    assert s[0] == '<' == s[1] && s[2..] == NodesText(entries, ">>" + rest);
  }

  /** So a dictionary is read, and the cursor is just after it, exactly then. */
  lemma DictReads(entries: Nodes, number: Words)
    ensures (forall rest: string ::
        NextToken(NodeText(DictNode(entries), rest), number) == Read(Operand(Nothing), rest))
      <==> Balanced(NodesText(entries, ""))
  {
    var s := NodesText(entries, "");
    BodySkippedWhenBalanced(s);
    forall rest: string
      ensures NextToken(NodeText(DictNode(entries), rest), number) == Read(Operand(Nothing), rest)
         <==> AfterDict(s + (">>" + rest), 1) == rest
    {
      DictStarts(entries, rest, number);
    }
  }

  /** Entries written well are such a text, whatever is nested in them, when no comment leaves anything open. */
  lemma EntriesBalanced(entries: Nodes)
    requires AllSkipped(entries)
    ensures Balanced(NodesText(entries, ""))
  {
    SkipsNodes(entries, CLOSED, 1);
    NodesJoin(entries, CLOSED);
    ClosedEnds(1);
    if !Balanced(NodesText(entries, "")) { OtherSkips(NodesText(entries, ""), 1); }
  }

  lemma OpenedText(open: Gap)
    requires open == [Comment("(", '\n')]
    ensures AfterDict(GapText(open, "") + (">>" + "Q"), 1) == ""
  {
    assert open[1..] == [];
    var s := GapText(open, "") + (">>" + "Q");
    assert s == "%(\n>>Q" && s[1..] == "(\n>>Q" && s[1..][1..] == "\n" + CLOSED;
    assert ("\n" + CLOSED)[1..] == CLOSED;
    NeverClosed(CLOSED, 1);
    assert Literal("\n" + CLOSED, 1).rest == "";
    assert DictTurn(s[1..], 1) == (1, "");
  }

  lemma ClosedText(open: Gap, closed: Gap, entries: Nodes)
    requires open == [Comment("(", '\n')] && closed == [Comment(")", '\n')]
    requires entries == Nodes(open, NameNode([Letter('A')]), NoNodes(closed))
    ensures Balanced(NodesText(entries, ""))
  {
    CommentText("(", "/A%)\n");
    CommentText(")", "");
    LetterText('A', "%)\n");
    assert ['%'] + (")" + (['\n'] + "")) == "%)\n" && ['/'] + (['A'] + "%)\n") == "/A%)\n";
    assert "(" + (['\n'] + "/A%)\n") == ['('] + "\n/A%)\n";
    ClosedBalanced();
  }

  lemma CommentText(text: string, rest: string)
    ensures GapText([Comment(text, '\n')], rest) == ['%'] + (text + (['\n'] + rest))
  {
    assert [Comment(text, '\n')][1..] == [];
  }

  lemma LetterText(c: char, rest: string)
    ensures NodeText(NameNode([Letter(c)]), rest) == ['/'] + ([c] + rest)
  {
    assert [Letter(c)][1..] == [] && NameWritten([], rest) == rest;
    assert NameWritten([Letter(c)], rest) == NamePieceText(Letter(c), rest);
  }

  lemma ClosedBalanced()
    ensures Balanced(['%'] + (['('] + "\n/A%)\n"))
  {
    ClosedLiteral();
    StringLevel("\n/A%)\n", "\n");
    PlainLevel('\n', "");
    assert ['\n'] + "" == "\n";
    PlainLevel('%', ['('] + "\n/A%)\n");
  }

  lemma PlainLevel(c: char, s: string)
    requires c !in "(<>"
    ensures Level([c] + s, 1) == Level(s, 1)
  {
    Cons(c, s);
  }

  lemma StringLevel(s: string, left: string)
    requires Closes(s, 1) && Literal(s, 1).rest == left
    ensures Level(['('] + s, 1) == Level(left, 1)
  {
    Cons('(', s);
  }

  lemma ClosedLiteral()
    ensures Closes("\n/A%)\n", 1) && Literal("\n/A%)\n", 1).rest == "\n"
  {
    assert "\n/A%)\n"[1..] == "/A%)\n" && "/A%)\n"[1..] == "A%)\n" && "A%)\n"[1..] == "%)\n";
    assert "%)\n"[1..] == ")\n" && ")\n"[1..] == "\n";
    assert Closes(")\n", 1) && Literal(")\n", 1).rest == "\n";
    assert Closes("%)\n", 1) && Literal("%)\n", 1).rest == "\n";
    assert Closes("A%)\n", 1) && Literal("A%)\n", 1).rest == "\n";
    assert Closes("/A%)\n", 1) && Literal("/A%)\n", 1).rest == "\n";
  }

  /** A dictionary whose end is missed: its comment opens a string. Where another closes it, the end is found. */
  lemma CommentInDict(number: Words)
    ensures var open, closed := [Comment("(", '\n')], [Comment(")", '\n')];
      NextToken(NodeText(DictNode(NoNodes(open)), "Q"), number) == Read(Operand(Nothing), "")
      && NextToken(NodeText(DictNode(Nodes(open, NameNode([Letter('A')]), NoNodes(closed))), "Q"), number)
         == Read(Operand(Nothing), "Q")
  {
    var open, closed := [Comment("(", '\n')], [Comment(")", '\n')];
    assert open[1..] == [] && closed[1..] == [];
    DictStarts(NoNodes(open), "Q", number);
    OpenedText(open);
    var entries := Nodes(open, NameNode([Letter('A')]), NoNodes(closed));
    DictStarts(entries, "Q", number);
    ClosedText(open, closed, entries);
    BodySkips(NodesText(entries, ""), "Q");
  }

  // ------------------------------------------------------------------- gaps

  lemma {:induction false} CommentEnds(text: string, eol: char, rest: string)
    requires IsEol(eol) && forall c <- text :: !IsEol(c)
    ensures AfterComment(text + ([eol] + rest)) == [eol] + rest
  {
    var s := text + ([eol] + rest);
    if text == [] {
      assert s == [eol] + rest;
    } else {
      assert s[0] == text[0] && text[0] in text && s[1..] == text[1..] + ([eol] + rest);
      assert forall c <- text[1..] :: c in text;
      CommentEnds(text[1..], eol, rest);
    }
  }

  lemma BlankIgnored(b: Blank, rest: string)
    requires IsBlank(b)
    ensures AfterIgnored(BlankText(b, rest)) == AfterIgnored(rest)
  {
    match b
    case Space(c) => Cons(c, rest);
    case Comment(text, eol) =>
      CommentEnds(text, eol, rest);
      Cons('%', text + ([eol] + rest));
      Cons(eol, rest);
  }

  lemma {:induction false} GapIgnored(gap: Gap, rest: string)
    requires IsGap(gap)
    ensures AfterIgnored(GapText(gap, rest)) == AfterIgnored(rest)
  {
    if gap != [] {
      BlankIgnored(gap[0], GapText(gap[1..], rest));
      GapIgnored(gap[1..], rest);
    }
  }

  /** Skipping space alone leaves the text, or the first comment. */
  lemma {:induction false} GapSkipped(gap: Gap, rest: string)
    requires IsGap(gap)
    ensures var a := AfterSpace(GapText(gap, rest));
      if AllSpace(gap) then a == AfterSpace(rest) else Starts(a, '%') && AfterIgnored(a) == AfterIgnored(rest)
  {
    if gap != [] {
      var more := GapText(gap[1..], rest);
      match gap[0]
      case Space(c) =>
        Cons(c, more);
        GapSkipped(gap[1..], rest);
      case Comment(text, eol) =>
        Cons('%', text + ([eol] + more));
        GapIgnored(gap, rest);
    }
  }

  // ------------------------------------------------------------ reading it back

  lemma NodeHead(n: Node, rest: string, number: Words)
    requires Good(n, rest, number)
    ensures var s := NodeText(n, rest); s != [] && !IsSpace(s[0]) && s[0] != ']'
  {
  }

  lemma WordNodeReads(word: string, rest: string, number: Words)
    requires word != "" && AllRegular(word) && Ends(rest)
    ensures NextToken(word + rest, number) == Read(if number(word) then Operand(Number(word)) else Operator(word), rest)
  {
    WordReads(word, rest);
    assert (word + rest)[0] == word[0];
  }

  lemma KeywordReads(word: string, rest: string, number: Words)
    requires IsKeyword(word) && !number(word) && Ends(rest)
    ensures NextToken(word + rest, number) == Read(Operator(word), rest)
  {
    WordNodeReads(word, rest, number);
  }

  lemma LiteralNodeReads(ps: seq<Piece>, rest: string, number: Words)
    requires Permitted(ps, 1, [')'] + rest)
    ensures NextToken(NodeText(LiteralNode(ps), rest), number) == Read(Operand(Text(Bytes(ps))), rest)
  {
    LiteralReads(ps, 1, rest);
    Cons('(', Written(ps, [')'] + rest));
  }

  lemma NameNodeReads(ps: seq<NamePiece>, rest: string, number: Words)
    requires NameAllowed(ps) && Ends(rest)
    ensures NextToken(NodeText(NameNode(ps), rest), number) == Read(Operand(Name(NameBytes(ps))), rest)
  {
    Cons('/', NameWritten(ps, rest));
    NameReads(ps, rest);
  }

  /** An operand that is written well is read back, and the cursor is just after it. */
  lemma {:induction false} NodeReads(n: Node, rest: string, number: Words)
    requires Good(n, rest, number)
    ensures NextToken(NodeText(n, rest), number) == Read(NodeToken(n), rest)
    decreases n
  {
    match n
    case WordNode(word) => WordNodeReads(word, rest, number);
    case KeywordNode(word) => KeywordReads(word, rest, number);
    case LiteralNode(ps) => LiteralNodeReads(ps, rest, number);
    case HexNode(digits, bytes) => HexNodeReads(digits, bytes, rest);
    case NameNode(ps) => NameNodeReads(ps, rest, number);
    case ArrayNode(items) => ArrayNodeReads(items, rest, number);
    case DictNode(entries) => DictReads(entries, number);
  }

  lemma {:induction false} ArrayNodeReads(items: Nodes, rest: string, number: Words)
    requires AllGood(items, [']'] + rest, number) && AllSpace(LastGap(items))
    ensures NextToken(NodeText(ArrayNode(items), rest), number) == Read(Operand(Array(ItemValues(items))), rest)
    decreases items, 1
  {
    Cons('[', NodesText(items, [']'] + rest));
    ItemsRead(items, rest, number);
    GapSkipped(LastGap(items), [']'] + rest);
    Cons(']', rest);
    ItemsNone(ItemValues(items), Read([], rest));
  }

  /** The items of an array are read, up to the gap after them. */
  lemma {:induction false} ItemsRead(ns: Nodes, rest: string, number: Words)
    requires AllGood(ns, [']'] + rest, number)
    ensures Items(NodesText(ns, [']'] + rest), number)
         == AfterItems(ItemValues(ns), Items(GapText(LastGap(ns), [']'] + rest), number))
    ensures IsGap(LastGap(ns))
    decreases ns, 0
  {
    match ns
    case NoNodes(last) => ItemsNone([], Items(GapText(last, [']'] + rest), number));
    case Nodes(gap, head, tail) =>
      var more := NodesText(tail, [']'] + rest);
      NodeHead(head, more, number);
      NodeReads(head, more, number);
      GapTurn(gap, NodeText(head, more), number);
      ItemsRead(tail, rest, number);
      var last := Items(GapText(LastGap(ns), [']'] + rest), number);
      AfterItemsMore(NodeValue(head), ItemValues(tail), last);
      assert [] + ItemValues(tail) == ItemValues(tail);
  }

  /** What a turn of an array does with the token it reads. */
  function Turned(t: Read<Token>, number: Words): Read<seq<Value>> {
    match t.value
    case End => Read([], t.rest)
    case Operator(_) => Items(t.rest, number)
    case Operand(v) => AfterItems([v], Items(t.rest, number))
  }

  lemma ItemsTurn(s: string, a: string, number: Words)
    requires s != [] && a == AfterSpace(s) && (a == [] || a[0] != ']')
    ensures Items(s, number) == Turned(NextToken(a, number), number)
  {
  }

  lemma GapTurn(gap: Gap, s: string, number: Words)
    requires IsGap(gap) && s != [] && !IsSpace(s[0]) && s[0] != ']'
    ensures Items(GapText(gap, s), number) == Turned(NextToken(s, number), number)
  {
    var t := GapText(gap, s);
    GapSkipped(gap, s);
    ItemsTurn(t, AfterSpace(t), number);
  }

  /** After a comment the bracket is no end: the array goes on with the token that follows. */
  lemma CommentHidesBracket(gap: Gap, tail: string, number: Words)
    requires IsGap(gap) && !AllSpace(gap)
    ensures Items(GapText(gap, [']'] + tail), number) == Turned(NextToken(tail, number), number)
  {
    var t := GapText(gap, [']'] + tail);
    GapSkipped(gap, [']'] + tail);
    Cons(']', tail);
    ItemsTurn(t, AfterSpace(t), number);
  }

  /** So an array is read back, before any text, exactly when no comment stands before its closing bracket. */
  lemma ArrayReadsUnlessComment(ns: Nodes, number: Words)
    requires forall tail: string :: AllGood(ns, [']'] + tail, number)
    ensures (forall tail: string :: Items(NodesText(ns, [']'] + tail), number) == Read(ItemValues(ns), tail))
       <==> AllSpace(LastGap(ns))
  {
    if AllSpace(LastGap(ns)) {
      forall tail: string
        ensures Items(NodesText(ns, [']'] + tail), number) == Read(ItemValues(ns), tail)
      {
        assert Good(ArrayNode(ns), tail, number);
        ItemsRead(ns, tail, number);
        GapSkipped(LastGap(ns), [']'] + tail);
        Cons(']', tail);
        ItemsNone(ItemValues(ns), Read([], tail));
      }
    } else {
      var tail := "]";
      ItemsRead(ns, tail, number);
      CommentHidesBracket(LastGap(ns), tail, number);
      Cons(']', "");
      assert Items(NodesText(ns, [']'] + tail), number).rest == [];
    }
  }

  /** What is read is every item exactly when none is a keyword. */
  lemma {:induction false} AllItemsUnlessKeyword(ns: Nodes)
    ensures |ItemValues(ns)| <= |NodeValues(ns)|
    ensures ItemValues(ns) == NodeValues(ns) <==> NoKeyword(ns)
  {
    match ns
    case NoNodes(_) =>
    case Nodes(_, head, tail) =>
      AllItemsUnlessKeyword(tail);
      Cancel([NodeValue(head)], ItemValues(tail), NodeValues(tail));
  }

  /** An operation, as it may be written: its operands, a gap before each, and its operator. */
  datatype OperationNode = OperationNode(operator: string, operands: Nodes)

  function OperationText(o: OperationNode, rest: string): string {
    NodesText(o.operands, o.operator + rest)
  }

  predicate IsOperator(word: string, number: Words) {
    word != "" && AllRegular(word) && !number(word) && word != "BI" && !IsKeyword(word)
  }

  predicate GoodOperation(o: OperationNode, rest: string, number: Words) {
    IsOperator(o.operator, number) && Ends(rest) && AllGood(o.operands, o.operator + rest, number)
  }

  lemma NextGap(gap: Gap, s: string, args: seq<Value>, number: Words)
    requires IsGap(gap)
    ensures Next(GapText(gap, s), args, number) == Next(s, args, number)
  {
    GapIgnored(gap, s);
  }

  lemma {:induction false} OperandsRead(ns: Nodes, word: string, args: seq<Value>, rest: string, number: Words)
    requires IsOperator(word, number) && Ends(rest) && AllGood(ns, word + rest, number)
    ensures Next(NodesText(ns, word + rest), args, number) == Read(Some(Operation(word, args + NodeValues(ns))), rest)
    decreases ns
  {
    match ns
    case NoNodes(last) =>
      NextGap(last, word + rest, args, number);
      WordNodeReads(word, rest, number);
      assert args + NodeValues(ns) == args;
    case Nodes(gap, head, tail) =>
      var t := NodesText(tail, word + rest);
      NextGap(gap, NodeText(head, t), args, number);
      NodeReads(head, t, number);
      OperandsRead(tail, word, args + [NodeValue(head)], rest, number);
      Assoc(args, [NodeValue(head)], NodeValues(tail));
  }

  /** The operations of a text. */
  function Operations(s: string, number: Words): seq<Operation>
    decreases |s|
  {
    var r := Next(s, [], number);
    match r.value
    case None => []
    case Some(o) => [o] + Operations(r.rest, number)
  }

  /** Operations one after another, and a gap at the end. */
  function StreamText(os: seq<OperationNode>, last: Gap): string {
    if os == [] then GapText(last, "") else OperationText(os[0], StreamText(os[1..], last))
  }

  function Meanings(os: seq<OperationNode>): seq<Operation> {
    if os == [] then [] else [Operation(os[0].operator, NodeValues(os[0].operands))] + Meanings(os[1..])
  }

  predicate GoodStream(os: seq<OperationNode>, last: Gap, number: Words) {
    if os == [] then IsGap(last)
    else GoodOperation(os[0], StreamText(os[1..], last), number) && GoodStream(os[1..], last, number)
  }

  /** A content stream, however its operands are written, is read back operation by operation. */
  lemma {:induction false} StreamReads(os: seq<OperationNode>, last: Gap, number: Words)
    requires GoodStream(os, last, number)
    ensures Operations(StreamText(os, last), number) == Meanings(os)
  {
    if os == [] {
      NextGap(last, "", [], number);
    } else {
      var o, rest := os[0], StreamText(os[1..], last);
      OperandsRead(o.operands, o.operator, [], rest, number);
      assert [] + NodeValues(o.operands) == NodeValues(o.operands);
      StreamReads(os[1..], last, number);
    }
  }

  // ----------------------------------------------------------------- reader

  lemma AfterMore(out: string, c: char, r: Read<string>)
    ensures After(out, Prepend(c, r)) == After(out + [c], r)
  {
    assert out + ([c] + r.value) == (out + [c]) + r.value;
  }

  lemma AfterNone(r: Read<string>)
    ensures After("", r) == r
  {
    assert "" + r.value == r.value;
  }

  lemma AfterAll(out: string, rest: string)
    ensures After(out, Read("", rest)) == Read(out, rest)
  {
    assert out + "" == out;
  }

  lemma OctalMore(b: string, start: nat, i: nat)
    requires start < i < |b| && IsOctal(b[i])
    ensures OctalValue(b[start..i + 1]) == 8 * OctalValue(b[start..i]) + (b[i] as int - '0' as int)
    ensures forall n: nat | n > 0 :: OctalRun(b[i..], n) == 1 + OctalRun(b[i + 1..], n - 1)
  {
    var d := b[start..i + 1];
    assert d[..|d| - 1] == b[start..i] && d[|d| - 1] == b[i];
    Suffix(b, i);
  }

  lemma NameTurn(b: string, i: nat, c: char, n: nat)
    requires i < |b| && IsRegular(b[i])
    requires (c, n) == if b[i] == '#' && i + 2 < |b| && HexDigit(b[i + 1]).Some? && HexDigit(b[i + 2]).Some?
      then (Pair(HexValue(b[i + 1]), HexValue(b[i + 2])), 3) else (b[i], 1)
    ensures i + n <= |b| && NameText(b[i..]) == Prepend(c, NameText(b[i + n..]))
  {
    assert b[i..][n..] == b[i + n..];
  }

  lemma OctalDone(b: string, start: nat, i: nat, depth: nat)
    requires start < i <= |b| && IsOctal(b[start]) && i - start - 1 == OctalRun(b[start + 1..], 2)
    ensures EscapeAt(b[start..], depth) == Turn(Some(Byte(OctalValue(b[start..i]))), depth, b[i..])
  {
    Suffix(b, start);
    Slices(b, start, i);
  }

  lemma WordMore(b: string, start: nat, i: nat)
    requires start <= i < |b| && IsRegular(b[i])
    ensures After(b[start..i], Word(b[i..])) == After(b[start..i + 1], Word(b[i + 1..]))
  {
    Suffix(b, i);
    AfterMore(b[start..i], b[i], Word(b[i + 1..]));
    assert b[start..i + 1] == b[start..i] + [b[i]];
  }

  lemma Suffix(b: string, i: nat)
    requires i < |b|
    ensures b[i..][0] == b[i] && b[i..][1..] == b[i + 1..]
    ensures i + 1 < |b| ==> b[i..][1] == b[i + 1] && b[i..][2..] == b[i + 2..]
  {
  }

  lemma Slices(b: string, i: nat, j: nat)
    requires i <= j <= |b|
    ensures b[i..][..j - i] == b[i..j] && b[i..][j - i..] == b[j..]
  {
  }

  /** Items read after some others. */
  function AfterItems(out: seq<Value>, r: Read<seq<Value>>): Read<seq<Value>> {
    Read(out + r.value, r.rest)
  }

  lemma ItemsMore(out: seq<Value>, v: Value, r: Read<seq<Value>>)
    ensures AfterItems(out, AfterItems([v], r)) == AfterItems(out + [v], r)
  {
    Assoc(out, [v], r.value);
  }

  lemma ItemsNone(out: seq<Value>, r: Read<seq<Value>>)
    ensures AfterItems([], r) == r
    ensures r.value == [] ==> AfterItems(out, r) == Read(out, r.rest)
  {
    assert [] + r.value == r.value && out + [] == out;
  }

  lemma AfterItemsMore(v: Value, vs: seq<Value>, r: Read<seq<Value>>)
    ensures AfterItems([v], AfterItems(vs, r)) == AfterItems([v] + vs, r)
  {
    Assoc([v], vs, r.value);
  }

  /** EI is here, between spaces. */
  predicate EndsImage(b: string, i: nat)
    requires 0 < i <= |b| - 2
  {
    b[i] == 'E' && b[i + 1] == 'I' && IsSpace(b[i - 1]) && (i + 2 == |b| || IsSpace(b[i + 2]))
  }

  lemma ImageStart(b: string, i: nat)
    requires i < |b|
    ensures AfterSpacedImage(b[i..]) == AfterImage(b[i], b[i + 1..])
  {
    Suffix(b, i);
  }

  lemma ImageTurn(b: string, i: nat)
    requires 0 < i <= |b| - 2
    ensures AfterImage(b[i - 1], b[i..]) == if EndsImage(b, i) then b[i + 2..] else AfterImage(b[i], b[i + 1..])
  {
    Suffix(b, i);
  }

  class Lexer {
    const b: string
    const number: Words
    var i: nat

    constructor (b: string, number: Words)
      ensures Valid() && this.b == b && this.number == number && i == 0
    {
      this.b, this.number, i := b, number, 0;
    }

    ghost predicate Valid()
      reads this
    {
      i <= |b|
    }

    /** The text from the cursor on. */
    ghost function Rest(): string
      requires Valid()
      reads this
    {
      b[i..]
    }

    /** An escape, from after its backslash: a character, or none for an escaped end of line. */
    method ReadEscape(ghost depth: nat) returns (r: Option<char>)
      requires i < |b|
      modifies this`i
      ensures Valid() && i > old(i)
      ensures Turn(r, depth, Rest()) == EscapeAt(old(Rest()), depth)
    {
      Suffix(b, i);
      var e := b[i];
      if IsOctal(e) {
        r := ReadOctal(depth);
        return;
      }
      i := i + 1;
      if e == '\r' {
        if i < |b| && b[i] == '\n' { i := i + 1; }
        r := None;
      } else if e == '\n' {
        r := None;
      } else {
        r := Some(Escaped(e));
      }
    }

    /** An escape of up to three octal digits. */
    method ReadOctal(ghost depth: nat) returns (r: Option<char>)
      requires i < |b| && IsOctal(b[i])
      modifies this`i
      ensures Valid() && i > old(i)
      ensures Turn(r, depth, Rest()) == EscapeAt(old(Rest()), depth)
    {
      var start := i;
      var n, k := b[i] as int - '0' as int, 0;
      i := i + 1;
      assert b[start..i][..0] == "";
      while k < 2 && i < |b| && IsOctal(b[i])
        invariant 0 <= k <= 2 && i == start + 1 + k <= |b|
        invariant n == OctalValue(b[start..i])
        invariant k + OctalRun(b[i..], 2 - k) == OctalRun(b[start + 1..], 2)
        decreases 2 - k
      {
        OctalMore(b, start, i);
        n := 8 * n + (b[i] as int - '0' as int);
        i := i + 1;
        k := k + 1;
      }
      OctalDone(b, start, i, depth);
      r := Some(Byte(n));
    }

    /** One turn of the loop of a literal string. */
    method ReadTurn(depth: nat) returns (r: Option<char>, d: nat)
      requires i < |b| && depth > 0
      modifies this`i
      ensures Valid() && i > old(i) && Turn(r, d, Rest()) == TurnAt(old(Rest()), depth)
    {
      var c := b[i];
      Suffix(b, i);
      i := i + 1;
      r, d := Some(c), depth;
      if c == '(' {
        d := depth + 1;
      } else if c == ')' {
        d := depth - 1;
      } else if c == '\\' {
        if i >= |b| { r := None; } else { r := ReadEscape(depth); }
      }
    }

    /** A literal string, from after its opening parenthesis. */
    method ReadLiteral() returns (out: string)
      requires Valid()
      modifies this`i
      ensures Valid() && i >= old(i)
      ensures Read(out, Rest()) == Literal(old(Rest()), 1)
    {
      out := "";
      var depth := 1;
      ghost var want := Literal(Rest(), 1);
      AfterNone(want);
      while i < |b|
        invariant Valid() && i >= old(i) && depth >= 1
        invariant want == After(out, Literal(Rest(), depth))
        decreases |b| - i
      {
        var c, d := ReadTurn(depth);
        if d == 0 {
          AfterAll(out, Rest());
          return;
        }
        depth := d;
        if c.Some? {
          AfterMore(out, c.value, Literal(Rest(), depth));
          out := out + [c.value];
        }
      }
      AfterAll(out, "");
    }

    /** A hex string, from after its opening bracket. */
    method ReadHex() returns (out: string)
      requires Valid()
      modifies this`i
      ensures Valid() && i >= old(i)
      ensures Read(out, Rest()) == Hex(old(Rest()), None)
    {
      out := "";
      var half: Option<nat> := None;
      ghost var want := Hex(Rest(), None);
      AfterNone(want);
      while i < |b|
        invariant Valid() && i >= old(i)
        invariant want == After(out, Hex(Rest(), half))
        decreases |b| - i
      {
        var c := b[i];
        Suffix(b, i);
        i := i + 1;
        if c == '>' {
          if half.Some? { out := out + [Pair(half.value, 0)]; } else { AfterAll(out, Rest()); }
          return;
        }
        var n := HexDigit(c);
        if n == None { continue; }
        if half.Some? {
          AfterMore(out, Pair(half.value, n.value), Hex(Rest(), None));
          out := out + [Pair(half.value, n.value)];
          half := None;
        } else {
          half := n;
        }
      }
      if half.Some? { out := out + [Pair(half.value, 0)]; } else { AfterAll(out, Rest()); }
    }

    method ReadName() returns (out: string)
      requires Valid()
      modifies this`i
      ensures Valid() && i >= old(i)
      ensures Read(out, Rest()) == NameText(old(Rest()))
    {
      out := "";
      ghost var want := NameText(Rest());
      AfterNone(want);
      while i < |b| && IsRegular(b[i])
        invariant Valid() && i >= old(i)
        invariant want == After(out, NameText(Rest()))
        decreases |b| - i
      {
        var c, n := b[i], 1;
        if c == '#' && i + 2 < |b| && HexDigit(b[i + 1]).Some? && HexDigit(b[i + 2]).Some? {
          c, n := Pair(HexValue(b[i + 1]), HexValue(b[i + 2])), 3;
        }
        NameTurn(b, i, c, n);
        i := i + n;
        AfterMore(out, c, NameText(Rest()));
        out := out + [c];
      }
      AfterAll(out, Rest());
    }

    method ReadWord() returns (out: string)
      requires Valid()
      modifies this`i
      ensures Valid() && i >= old(i)
      ensures Read(out, Rest()) == Word(old(Rest()))
    {
      var start := i;
      ghost var want := Word(Rest());
      AfterNone(want);
      assert b[start..i] == "";
      while i < |b| && IsRegular(b[i])
        invariant Valid() && i >= start
        invariant want == After(b[start..i], Word(Rest()))
        decreases |b| - i
      {
        WordMore(b, start, i);
        i := i + 1;
      }
      out := b[start..i];
      AfterAll(out, Rest());
    }

    method SkipSpace()
      requires Valid()
      modifies this`i
      ensures Valid() && i >= old(i) && Rest() == AfterSpace(old(Rest()))
    {
      while i < |b| && IsSpace(b[i])
        invariant Valid() && i >= old(i) && AfterSpace(Rest()) == AfterSpace(old(Rest()))
        decreases |b| - i
      {
        Suffix(b, i);
        i := i + 1;
      }
    }

    method SkipComment()
      requires Valid()
      modifies this`i
      ensures Valid() && i >= old(i) && Rest() == AfterComment(old(Rest()))
    {
      while i < |b| && b[i] != '\n' && b[i] != '\r'
        invariant Valid() && i >= old(i) && AfterComment(Rest()) == AfterComment(old(Rest()))
        decreases |b| - i
      {
        Suffix(b, i);
        i := i + 1;
      }
    }

    /** One turn of the loop that skips a dictionary. */
    method SkipTurn(depth: nat) returns (d: nat)
      requires i < |b| && depth > 0
      modifies this`i
      ensures Valid() && i > old(i) && (d, Rest()) == DictTurn(old(Rest()), depth)
    {
      Suffix(b, i);
      var c := b[i];
      var doubled := i + 1 < |b| && b[i + 1] == c;
      d := depth;
      if c == '(' {
        i := i + 1;
        var _ := ReadLiteral();
      } else if c == '<' && doubled {
        d := depth + 1;
        i := i + 2;
      } else if c == '>' && doubled {
        d := depth - 1;
        i := i + 2;
      } else if c == '<' {
        i := i + 1;
        var _ := ReadHex();
      } else {
        i := i + 1;
      }
    }

    /** Skips a dictionary, from after its opening brackets. */
    method SkipDict()
      requires Valid()
      modifies this`i
      ensures Valid() && i >= old(i) && Rest() == AfterDict(old(Rest()), 1)
    {
      var depth := 1;
      while i < |b| && depth > 0
        invariant Valid() && i >= old(i) && depth >= 0
        invariant AfterDict(Rest(), depth) == AfterDict(old(Rest()), 1)
        decreases |b| - i
      {
        depth := SkipTurn(depth);
      }
    }

    /** Skips spaces, comments and stray delimiters. */
    method SkipIgnored()
      requires Valid()
      modifies this`i
      ensures Valid() && i >= old(i) && Rest() == AfterIgnored(old(Rest()))
    {
      while i < |b|
        invariant Valid() && i >= old(i) && AfterIgnored(Rest()) == AfterIgnored(old(Rest()))
        decreases |b| - i
      {
        Suffix(b, i);
        if b[i] == '%' {
          i := i + 1;
          SkipComment();
        } else if IsSpace(b[i]) || b[i] in "])>{}" {
          i := i + 1;
        } else {
          return;
        }
      }
    }

    /** The next operand or operator. It reads something, or is at the end, and stays in the text. */
    method ReadToken() returns (t: Token)
      requires Valid()
      modifies this`i
      ensures Valid() && i >= old(i) && (t != End ==> i > old(i))
      ensures Read(t, Rest()) == NextToken(old(Rest()), number)
      decreases |b| - i, 1
    {
      SkipIgnored();
      if i < |b| { t := ReadStarted(); } else { t := End; }
    }

    /** A dictionary, or a hex string. */
    method ReadAngle() returns (t: Token)
      requires i < |b| && b[i] == '<'
      modifies this`i
      ensures Valid() && i > old(i) && t != End
      ensures Read(t, Rest()) == Started(old(Rest()), number)
    {
      Suffix(b, i);
      if i + 1 < |b| && b[i + 1] == '<' {
        i := i + 2;
        SkipDict();
        t := Operand(Nothing);
      } else {
        i := i + 1;
        var s := ReadHex();
        t := Operand(Text(s));
      }
    }

    method ReadStarted() returns (t: Token)
      requires i < |b| && !IsSpace(b[i]) && b[i] !in "%])>{}"
      modifies this`i
      ensures Valid() && i > old(i) && t != End
      ensures Read(t, Rest()) == Started(old(Rest()), number)
      decreases |b| - i, 0
    {
      Suffix(b, i);
      var c := b[i];
      if c == '(' {
        i := i + 1;
        var s := ReadLiteral();
        t := Operand(Text(s));
      } else if c == '<' {
        t := ReadAngle();
      } else if c == '/' {
        i := i + 1;
        var s := ReadName();
        t := Operand(Name(s));
      } else if c == '[' {
        i := i + 1;
        var items := ReadArray();
        t := Operand(Array(items));
      } else {
        var word := ReadWord();
        t := if number(word) then Operand(Number(word)) else Operator(word);
      }
    }

    /** The operands up to a closing bracket. */
    method ReadArray() returns (out: seq<Value>)
      requires Valid()
      modifies this`i
      ensures Valid() && i >= old(i)
      ensures Read(out, Rest()) == Items(old(Rest()), number)
      decreases |b| - i, 2
    {
      out := [];
      ghost var want := Items(Rest(), number);
      ItemsNone([], want);
      while i < |b|
        invariant Valid() && i >= old(i)
        invariant want == AfterItems(out, Items(Rest(), number))
        decreases |b| - i
      {
        ghost var s := Rest();
        SkipSpace();
        if i < |b| && b[i] == ']' {
          Suffix(b, i);
          i := i + 1;
          ItemsNone(out, Read([], Rest()));
          return;
        }
        ghost var a := Rest();
        var t := ReadToken();
        ItemsTurn(s, a, number);
        match t {
          case End =>
            ItemsNone(out, Read([], Rest()));
            return;
          case Operator(_) =>
          case Operand(v) =>
            ItemsMore(out, v, Items(Rest(), number));
            out := out + [v];
        }
      }
      ItemsNone(out, Read([], ""));
    }

    /** Skips an inline image, from after its BI. */
    method SkipInlineImage()
      requires Valid()
      modifies this`i
      ensures Valid() && i >= old(i) && Rest() == AfterInline(old(Rest()), number)
    {
      ghost var want := AfterInline(Rest(), number);
      while true
        invariant Valid() && i >= old(i) && AfterInline(Rest(), number) == want
        decreases |b| - i
      {
        var t := ReadToken();
        if t == End { return; }
        if t == Operator("ID") { break; }
      }
      SkipImageData();
    }

    /** Skips an image's data, from the space before it, to just after the EI that ends it. */
    method SkipImageData()
      requires Valid()
      modifies this`i
      ensures Valid() && i >= old(i)
      ensures Rest() == AfterSpacedImage(old(Rest()))
    {
      if i >= |b| { return; }
      ImageStart(b, i);
      i := i + 1;
      FindImageEnd();
    }

    method FindImageEnd()
      requires 0 < i <= |b|
      modifies this`i
      ensures Valid() && i >= old(i)
      ensures Rest() == AfterImage(b[old(i) - 1], old(Rest()))
    {
      ghost var want := AfterImage(b[i - 1], Rest());
      while i + 2 <= |b|
        invariant 0 < i <= |b| && i >= old(i) && AfterImage(b[i - 1], b[i..]) == want
        decreases |b| - i
      {
        ImageTurn(b, i);
        if EndsImage(b, i) {
          i := i + 2;
          return;
        }
        i := i + 1;
      }
      i := |b|;
    }

    /** The next operator with its operands: none at the end. */
    method NextOperation() returns (r: Option<Operation>)
      requires Valid()
      modifies this`i
      ensures Valid() && i >= old(i)
      ensures Read(r, Rest()) == Next(old(Rest()), [], number)
    {
      var args: seq<Value> := [];
      ghost var want := Next(Rest(), [], number);
      while true
        invariant Valid() && i >= old(i) && Next(Rest(), args, number) == want
        decreases |b| - i
      {
        var t := ReadToken();
        match t {
          case End => return None;
          case Operand(v) => args := args + [v];
          case Operator(word) =>
            if word == "BI" {
              SkipInlineImage();
              args := [];
            } else if IsKeyword(word) {
              args := args + [Nothing];
            } else {
              return Some(Operation(word, args));
            }
        }
      }
    }
  }
}
