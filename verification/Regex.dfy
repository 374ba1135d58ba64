/**
 Regular expressions in the syntax of Go's regexp package (RE2's, with Perl's classes), as much of it
 as the glob compiler writes: text, how it parses, and what it matches.
 */
module Regex {
  import opened Wrappers

  datatype Range = Range(lo: char, hi: char)

  datatype Re =
    | Nothing  // the empty string
    | Begin
    | End
    | Char(c: char)
    | Dot
    | Class(negated: bool, ranges: seq<Range>)
    | Star(r: Re)
    | Cat(first: Re, second: Re)
    | Alt(left: Re, right: Re)

  datatype Read<+T> = Read(value: T, rest: string) | Bad

  // ----------------------------------------------------------------- syntax

  predicate IsMeta(c: char) {
    c in "\\.+*?()|[]{}^$"
  }

  predicate IsPunctuation(c: char) {
    c < '\U{0080}' && !('0' <= c <= '9') && !('a' <= c <= 'z') && !('A' <= c <= 'Z')
  }

  // A character of a class: an escaped "-" stands for itself and never makes a range.
  datatype Tok = Tok(c: char, escaped: bool)

  /** The characters of a class up to its "]", which can stand for itself only when it is the first. */
  function ClassToks(t: string, first: bool): (r: Read<seq<Tok>>)
    ensures r.Read? ==> |r.rest| < |t|
    decreases |t|
  {
    if t == "" then Bad
    else if t[0] == ']' && !first then Read([], t[1..])
    else if t[0] == '\\' then
      if |t| < 2 || !IsPunctuation(t[1]) then Bad
      else
        var more := ClassToks(t[2..], false);
        if more.Bad? then Bad else Read([Tok(t[1], true)] + more.value, more.rest)
    else if t[0] == '[' && |t| > 1 && t[1] == ':' then Bad
    else
      var more := ClassToks(t[1..], false);
      if more.Bad? then Bad else Read([Tok(t[0], false)] + more.value, more.rest)
  }

  /** The ranges of a class: none when one goes backwards. */
  function Ranges(toks: seq<Tok>): Option<seq<Range>> {
    if toks == [] then Some([])
    else
      var range := |toks| >= 3 && toks[1] == Tok('-', false);
      var lo, hi := toks[0].c, if range then toks[2].c else toks[0].c;
      var more := Ranges(toks[if range then 3 else 1..]);
      if hi < lo || more == None then None else Some([Range(lo, hi)] + more.value)
  }

  function ParseClass(t: string): (r: Read<Re>)
    ensures r.Read? ==> |r.rest| < |t|
  {
    var negated := t != "" && t[0] == '^';
    var toks := ClassToks(if negated then t[1..] else t, true);
    if toks.Bad? then Bad
    else
      var ranges := Ranges(toks.value);
      if ranges == None then Bad else Read(Class(negated, ranges.value), toks.rest)
  }

  function ParseAlt(t: string): (r: Read<Re>)
    ensures r.Read? ==> |r.rest| <= |t|
    decreases |t|, 2
  {
    var a := ParseCat(t);
    if a.Bad? then Bad
    else if a.rest != "" && a.rest[0] == '|' then
      var b := ParseAlt(a.rest[1..]);
      if b.Bad? then Bad else Read(Alt(a.value, b.value), b.rest)
    else a
  }

  function ParseCat(t: string): (r: Read<Re>)
    ensures r.Read? ==> |r.rest| <= |t|
    decreases |t|, 1
  {
    if t == "" || t[0] == '|' || t[0] == ')' then Read(Nothing, t)
    else
      var atom := ParseAtom(t);
      if atom.Bad? then Bad
      else
        var star := atom.rest != "" && atom.rest[0] == '*';
        var more := ParseCat(if star then atom.rest[1..] else atom.rest);
        if more.Bad? then Bad
        else Read(Cat(if star then Star(atom.value) else atom.value, more.value), more.rest)
  }

  function ParseAtom(t: string): (r: Read<Re>)
    requires t != ""
    ensures r.Read? ==> |r.rest| < |t|
    decreases |t|, 0
  {
    match t[0]
    case '^' => Read(Begin, t[1..])
    case '$' => Read(End, t[1..])
    case '.' => Read(Dot, t[1..])
    case '[' => ParseClass(t[1..])
    case '\\' => if |t| < 2 || !IsPunctuation(t[1]) then Bad else Read(Char(t[1]), t[2..])
    case '(' =>
      if |t| < 3 || t[1] != '?' || t[2] != ':' then Bad
      else
        var inner := ParseAlt(t[3..]);
        if inner.Bad? || inner.rest == "" || inner.rest[0] != ')' then Bad
        else Read(inner.value, inner.rest[1..])
    case _ => if IsMeta(t[0]) then Bad else Read(Char(t[0]), t[1..])
  }

  /** The expression a text is, when it is well formed. */
  function Parse(t: string): Option<Re> {
    var r := ParseAlt(t);
    if r.Bad? || r.rest != "" then None else Some(r.value)
  }

  // ---------------------------------------------------------------- meaning

  predicate InRanges(c: char, ranges: seq<Range>) {
    exists r <- ranges :: r.lo <= c <= r.hi
  }

  /** re matches s from i to j. */
  ghost predicate Matches(re: Re, s: string, i: nat, j: nat)
    requires i <= j <= |s|
    decreases re, j - i
  {
    match re
    case Nothing => i == j
    case Begin => i == j == 0
    case End => i == j == |s|
    case Char(c) => j == i + 1 && s[i] == c
    case Dot => j == i + 1 && s[i] != '\n'
    case Class(negated, ranges) => j == i + 1 && InRanges(s[i], ranges) != negated
    case Star(r) => i == j || exists k | i < k <= j :: Matches(r, s, i, k) && Matches(re, s, k, j)
    case Cat(a, b) => exists k | i <= k <= j :: Matches(a, s, i, k) && Matches(b, s, k, j)
    case Alt(a, b) => Matches(a, s, i, j) || Matches(b, s, i, j)
  }

  /** re matches somewhere in s. */
  ghost predicate MatchString(re: Re, s: string) {
    exists i: nat, j: nat | i <= j <= |s| :: Matches(re, s, i, j)
  }
}
