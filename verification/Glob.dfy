/**
 The glob compiler of internal/fixtures/glob.go: a glob's own grammar and what it matches, the regular
 expression it is translated into in one pass, and that the two match the same paths.
 */
module Glob {
  import opened Wrappers
  import opened Sequences
  import opened Regex

  // ------------------------------------------------------------------ globs

  datatype Piece =
    | Literal(c: char)
    | AnyOne                                  // ?
    | AnySegment                              // *
    | AnyPath                                 // **
    | Set(negated: bool, toks: seq<Tok>)      // [...]
    | Choice(choices: seq<Way>)               // {...,...}
  datatype Way = Way(pieces: seq<Piece>)

  /** The characters of a class up to its "]": a separator cannot be one. */
  function SetToks(g: string): (r: Read<seq<Tok>>)
    ensures r.Read? ==> |r.rest| < |g|
  {
    if g == "" || g[0] == '/' then Bad
    else if g[0] == ']' then Read([], g[1..])
    else
      var more := SetToks(g[1..]);
      if more.Bad? then Bad else Read([Tok(g[0], g[0] in "\\[^")] + more.value, more.rest)
  }

  /** A class after its "[": "!" negates it, and a "-" or "^" first stands for itself. */
  function ReadSet(g: string): (r: Read<Piece>)
    ensures r.Read? ==> |r.rest| < |g|
  {
    var negated := g != "" && g[0] == '!';
    var body := if negated then g[1..] else g;
    var first := body != "" && (body[0] == '-' || (body[0] == '^' && !negated));
    var toks := SetToks(if first then body[1..] else body);
    if toks.Bad? then Bad
    else Read(Set(negated, (if first then [Tok(body[0], true)] else []) + toks.value), toks.rest)
  }

  /** One piece outside or inside a group, but no group. */
  function ReadPiece(g: string): (r: Read<Piece>)
    requires g != ""
    ensures r.Read? ==> |r.rest| < |g|
  {
    match g[0]
    case '\\' => if |g| < 2 then Bad else Read(Literal(g[1]), g[2..])
    case '[' => ReadSet(g[1..])
    case '*' => if |g| > 1 && g[1] == '*' then Read(AnyPath, g[2..]) else Read(AnySegment, g[1..])
    case '?' => Read(AnyOne, g[1..])
    case c => Read(Literal(c), g[1..])
  }

  /** The pieces of an alternative, up to its "," or "}". */
  function ReadChoice(g: string): (r: Read<seq<Piece>>)
    ensures r.Read? ==> |r.rest| <= |g| && r.rest != ""
    decreases |g|
  {
    if g == "" || g[0] == '{' then Bad
    else if g[0] == ',' || g[0] == '}' then Read([], g)
    else
      var p := ReadPiece(g);
      if p.Bad? then Bad
      else
        var more := ReadChoice(p.rest);
        if more.Bad? then Bad else Read([p.value] + more.value, more.rest)
  }

  /** The alternatives of a group, up to and with its "}". */
  function ReadChoices(g: string): (r: Read<seq<Way>>)
    ensures r.Read? ==> |r.rest| < |g| && r.value != []
    decreases |g|
  {
    var choice := ReadChoice(g);
    if choice.Bad? || choice.rest == "" then Bad
    else if choice.rest[0] == '}' then Read([Way(choice.value)], choice.rest[1..])
    else
      var more := ReadChoices(choice.rest[1..]);
      if more.Bad? then Bad else Read([Way(choice.value)] + more.value, more.rest)
  }

  /** The pieces of a glob; none when it is malformed. */
  function Pieces(g: string): Option<seq<Piece>>
    decreases |g|
  {
    if g == "" then Some([])
    else
      var p := if g[0] == '{' then GroupPiece(ReadChoices(g[1..])) else ReadPiece(g);
      if p.Bad? then None
      else
        var more := Pieces(p.rest);
        if more == None then None else Some([p.value] + more.value)
  }

  function GroupPiece(r: Read<seq<Way>>): (p: Read<Piece>)
    ensures p.Read? <==> r.Read?
    ensures p.Read? ==> p.rest == r.rest && p.value == Choice(r.value)
  {
    if r.Bad? then Bad else Read(Choice(r.value), r.rest)
  }

  function RangesOf(toks: seq<Tok>): seq<Range> {
    var r := Ranges(toks);
    if r.Some? then r.value else []
  }

  /** c is in the class. As documented, no class matches a separator. */
  predicate InSet(c: char, negated: bool, toks: seq<Tok>, documented: bool) {
    if negated then c != '/' && !InRanges(c, RangesOf(toks))
    else InRanges(c, RangesOf(toks)) && !(documented && c == '/')
  }

  /**
   The pieces match the whole of path, one after the other. The two readings differ on "**", which as
   documented crosses anything and as compiled stops at line ends, and on classes.
   */
  ghost predicate GlobMatches(ps: seq<Piece>, path: string, documented: bool)
    decreases ps, 1
  {
    if ps == [] then path == ""
    else
      exists k | 0 <= k <= |path| ::
        PieceMatches(ps[0], path[..k], documented) && GlobMatches(ps[1..], path[k..], documented)
  }

  ghost predicate PieceMatches(p: Piece, t: string, documented: bool)
    decreases p, 0
  {
    match p
    case Literal(c) => t == [c]
    case AnyOne => |t| == 1 && t[0] != '/'
    case AnySegment => '/' !in t
    case AnyPath => documented || '\n' !in t
    case Set(negated, toks) => |t| == 1 && InSet(t[0], negated, toks, documented)
    case Choice(choices) => exists w <- choices :: GlobMatches(w.pieces, t, documented)
  }

  // ------------------------------------------------------------ translation

  function QuoteMeta(c: char): string {
    if IsMeta(c) then ['\\', c] else [c]
  }

  function TokText(t: Tok): string {
    if t.escaped then ['\\', t.c] else [t.c]
  }

  function ToksText(toks: seq<Tok>, rest: string): string {
    if toks == [] then rest else TokText(toks[0]) + ToksText(toks[1..], rest)
  }

  /** The text of a piece, followed by rest. */
  function PieceText(p: Piece, rest: string): string
    decreases p, 0
  {
    match p
    case Literal(c) => QuoteMeta(c) + rest
    case AnyOne => "[^/]" + rest
    case AnySegment => "[^/]*" + rest
    case AnyPath => ".*" + rest
    case Set(negated, toks) =>
      if negated then "[^/" + ToksText(toks, "]" + rest) else "(?:[" + ToksText(toks, "])" + rest)
    case Choice(choices) => "(?:" + ChoicesText(choices, rest)
  }

  function ChoicesText(choices: seq<Way>, rest: string): string
    decreases choices, 2
  {
    if choices == [] then ")" + rest
    else
      var more := if |choices| == 1 then ")" + rest else "|" + ChoicesText(choices[1..], rest);
      "(?:" + PiecesText(choices[0].pieces, ")" + more)
  }

  function PiecesText(ps: seq<Piece>, rest: string): string
    decreases ps, 1
  {
    if ps == [] then rest else PieceText(ps[0], PiecesText(ps[1..], rest))
  }

  function ToRe(p: Piece): Option<Re>
    decreases p, 0
  {
    match p
    case Literal(c) => Some(Char(c))
    case AnyOne => Some(Class(true, [Range('/', '/')]))
    case AnySegment => Some(Star(Class(true, [Range('/', '/')])))
    case AnyPath => Some(Star(Dot))
    case Set(negated, toks) =>
      var ranges := Ranges(toks);
      if ranges == None then None
      else if negated then Some(Class(true, [Range('/', '/')] + ranges.value))
      else Some(Cat(Class(false, ranges.value), Nothing))
    case Choice(choices) => ChoicesToRe(choices)
  }

  function ChoicesToRe(choices: seq<Way>): Option<Re>
    decreases choices, 2
  {
    if choices == [] then None
    else
      var a := PiecesToRe(choices[0].pieces, Some(Nothing));
      if |choices| == 1 then if a == None then None else Some(Cat(a.value, Nothing))
      else
        var b := ChoicesToRe(choices[1..]);
        if a == None || b == None then None else Some(Alt(Cat(a.value, Nothing), b.value))
  }

  function PiecesToRe(ps: seq<Piece>, tail: Option<Re>): Option<Re>
    decreases ps, 1
  {
    if ps == [] then tail
    else
      var a, b := ToRe(ps[0]), PiecesToRe(ps[1..], tail);
      if a == None || b == None then None else Some(Cat(a.value, b.value))
  }

  // ------------------------------------------------ the text is well formed

  /** What the grammar makes of a class's characters. */
  predicate TokMade(t: Tok) {
    if t.escaped then t.c in "\\[^-" else t.c !in "\\[]^/"
  }

  /** A piece the grammar makes, whose classes that are not negated have a character. */
  predicate Made(p: Piece) {
    match p
    case Set(negated, toks) =>
      && (forall t <- toks :: TokMade(t))
      && (if negated then toks == [] || toks[0] != Tok('-', false) else toks != [])
    case Choice(choices) => choices != [] && forall w <- choices :: forall q <- w.pieces :: Made(q)
    case _ => true
  }

  predicate AllMade(ps: seq<Piece>) {
    forall p <- ps :: Made(p)
  }

  predicate NoStar(t: string) {
    t == "" || t[0] != '*'
  }

  lemma {:induction false} ToksRead(toks: seq<Tok>, rest: string, first: bool)
    requires (forall t <- toks :: TokMade(t)) && (first ==> toks != [])
    ensures ClassToks(ToksText(toks, "]" + rest), first) == Regex.Read(toks, rest)
  {
    if toks == [] {
      Cons(']', rest);
    } else {
      var more := ToksText(toks[1..], "]" + rest);
      assert forall t <- toks[1..] :: t in toks;
      ToksRead(toks[1..], rest, false);
      TokReads(toks[0], more, first);
      assert toks == [toks[0]] + toks[1..];
    }
  }

  lemma TokReads(t: Tok, more: string, first: bool)
    requires TokMade(t) && ClassToks(more, false).Read?
    ensures var r := ClassToks(more, false);
            ClassToks(TokText(t) + more, first) == Regex.Read([t] + r.value, r.rest)
  {
    var s := TokText(t) + more;
    if t.escaped {
      assert s[1] == t.c && s[2..] == more && IsPunctuation(t.c);
    } else {
      assert s[1..] == more;
    }
  }

  function Then(re: Option<Re>, rest: string): Regex.Read<Re> {
    if re == None then Regex.Bad else Regex.Read(re.value, rest)
  }

  /** What a piece parses to, before what the rest does. */
  function PieceThen(re: Option<Re>, more: Regex.Read<Re>): Regex.Read<Re> {
    if re == None || more.Bad? then Regex.Bad else Regex.Read(Cat(re.value, more.value), more.rest)
  }

  lemma ClassReads(toks: seq<Tok>, negated: bool, rest: string)
    requires forall t <- toks :: TokMade(t)
    requires if negated then toks == [] || toks[0] != Tok('-', false) else toks != []
    ensures var body := ToksText(toks, "]" + rest);
            ParseAtom(if negated then "[^/" + body else "[" + body)
            == Then(var r := Ranges(toks);
                    if r == None then None
                    else if negated then Some(Class(true, [Range('/', '/')] + r.value))
                    else Some(Class(false, r.value)), rest)
  {
    var body := ToksText(toks, "]" + rest);
    if negated {
      var slash := Tok('/', false);
      ToksRead(toks, rest, false);
      assert ("[^/" + body)[1..] == ['^'] + (['/'] + body);
      Cons('^', ['/'] + body);
      Cons('/', body);
      assert ClassToks(['/'] + body, true) == Regex.Read([slash] + toks, rest);
      assert ([slash] + toks)[1..] == toks;
    } else {
      ToksRead(toks, rest, true);
      assert ("[" + body)[1..] == body;
      assert toks[0] in toks && body[0] == TokText(toks[0])[0] != '^';
    }
  }

  lemma AtomThen(t: string, re: Option<Re>, rest: string)
    requires t != "" && t[0] != '|' && t[0] != ')' && NoStar(rest)
    requires ParseAtom(t) == Then(re, rest)
    ensures ParseCat(t) == PieceThen(re, ParseCat(rest))
  {}

  lemma StarThen(t: string, re: Re, rest: string)
    requires t != "" && t[0] != '|' && t[0] != ')'
    requires ParseAtom(t) == Regex.Read(re, "*" + rest)
    ensures ParseCat(t) == PieceThen(Some(Star(re)), ParseCat(rest))
  {
    assert ("*" + rest)[1..] == rest;
  }

  lemma GroupAtom(inner: string, re: Option<Re>, rest: string)
    requires ParseAlt(inner) == Then(re, ")" + rest)
    ensures ParseAtom("(?:" + inner) == Then(re, rest)
  {
    assert ("(?:" + inner)[3..] == inner;
    assert (")" + rest)[1..] == rest;
  }

  lemma LiteralReads(c: char, rest: string)
    requires NoStar(rest)
    ensures ParseCat(QuoteMeta(c) + rest) == PieceThen(Some(Char(c)), ParseCat(rest))
  {
    var t := QuoteMeta(c) + rest;
    if IsMeta(c) {
      assert t[1] == c && t[2..] == rest && IsPunctuation(c);
    } else {
      assert t[1..] == rest;
    }
    AtomThen(t, Some(Char(c)), rest);
  }

  lemma SlashClass(rest: string)
    ensures ParseAtom("[^/]" + rest) == Regex.Read(Class(true, [Range('/', '/')]), rest)
  {
    ClassReads([], true, rest);
    assert "[^/" + ("]" + rest) == "[^/]" + rest;
    assert [Range('/', '/')] + [] == [Range('/', '/')];
  }

  lemma SegmentReads(rest: string)
    requires NoStar(rest)
    ensures ParseCat("[^/]" + rest) == PieceThen(ToRe(AnyOne), ParseCat(rest))
  {
    SlashClass(rest);
    AtomThen("[^/]" + rest, ToRe(AnyOne), rest);
  }

  lemma StarsRead(rest: string)
    ensures ParseCat("[^/]*" + rest) == PieceThen(ToRe(AnySegment), ParseCat(rest))
    ensures ParseCat(".*" + rest) == PieceThen(ToRe(AnyPath), ParseCat(rest))
  {
    SlashClass("*" + rest);
    assert "[^/]" + ("*" + rest) == "[^/]*" + rest;
    StarThen("[^/]*" + rest, Class(true, [Range('/', '/')]), rest);
    DotStar(rest);
  }

  lemma DotStar(rest: string)
    ensures ParseCat(".*" + rest) == PieceThen(ToRe(AnyPath), ParseCat(rest))
  {
    assert (".*" + rest)[1..] == "*" + rest;
    StarThen(".*" + rest, Dot, rest);
  }

  lemma SetReads(negated: bool, toks: seq<Tok>, rest: string)
    requires NoStar(rest) && Made(Set(negated, toks))
    ensures ParseCat(PieceText(Set(negated, toks), rest)) == PieceThen(ToRe(Set(negated, toks)), ParseCat(rest))
  {
    var ranges := Ranges(toks);
    if negated {
      ClassReads(toks, true, rest);
      AtomThen("[^/" + ToksText(toks, "]" + rest), ToRe(Set(true, toks)), rest);
    } else {
      var after := ")" + rest;
      var inner := "[" + ToksText(toks, "]" + after);
      ClassReads(toks, false, after);
      var plain := if ranges == None then None else Some(Class(false, ranges.value));
      AtomThen(inner, plain, after);
      assert ParseCat(after) == Regex.Read(Nothing, after);
      assert ParseAlt(inner) == Then(ToRe(Set(false, toks)), after);
      GroupAtom(inner, ToRe(Set(false, toks)), rest);
      assert "])" + rest == "]" + after && "(?:" + inner == "(?:[" + ToksText(toks, "]" + after);
      AtomThen("(?:" + inner, ToRe(Set(false, toks)), rest);
    }
  }

  lemma {:induction false} PieceReads(p: Piece, rest: string)
    requires Made(p) && NoStar(rest)
    ensures ParseCat(PieceText(p, rest)) == PieceThen(ToRe(p), ParseCat(rest))
    ensures NoStar(PieceText(p, rest))
    decreases p, 0
  {
    match p
    case Literal(c) => LiteralReads(c, rest);
    case Set(negated, toks) => SetReads(negated, toks, rest);
    case Choice(choices) =>
      ChoicesRead(choices, rest);
      GroupAtom(ChoicesText(choices, rest), ChoicesToRe(choices), rest);
      AtomThen("(?:" + ChoicesText(choices, rest), ChoicesToRe(choices), rest);
    case AnyOne => SegmentReads(rest);
    case _ => StarsRead(rest);
  }

  lemma {:induction false} PiecesRead(ps: seq<Piece>, rest: string)
    requires AllMade(ps) && NoStar(rest)
    ensures var r := ParseCat(rest);
            ParseCat(PiecesText(ps, rest)) == if r.Bad? then Regex.Bad else Then(PiecesToRe(ps, Some(r.value)), r.rest)
    ensures NoStar(PiecesText(ps, rest))
    decreases ps, 1
  {
    if ps != [] {
      PiecesRead(ps[1..], rest);
      PieceReads(ps[0], PiecesText(ps[1..], rest));
    }
  }

  lemma {:induction false} ChoicesRead(choices: seq<Way>, rest: string)
    requires choices != [] && forall w <- choices :: AllMade(w.pieces)
    ensures ParseAlt(ChoicesText(choices, rest)) == Then(ChoicesToRe(choices), ")" + rest)
    decreases choices, 2
  {
    var ps := choices[0].pieces;
    if |choices| == 1 {
      WayReads(ps, ")" + rest);
    } else {
      var more := ChoicesText(choices[1..], rest);
      WayReads(ps, "|" + more);
      ChoicesRead(choices[1..], rest);
      assert ("|" + more)[1..] == more;
    }
  }

  lemma {:induction false} WayReads(ps: seq<Piece>, tail: string)
    requires AllMade(ps) && tail != "" && (tail[0] == ')' || tail[0] == '|')
    ensures var a := PiecesToRe(ps, Some(Nothing));
            ParseCat("(?:" + PiecesText(ps, ")" + tail))
            == Then(if a == None then None else Some(Cat(a.value, Nothing)), tail)
    decreases ps, 2
  {
    var a, after := PiecesToRe(ps, Some(Nothing)), ")" + tail;
    assert ParseCat(after) == Regex.Read(Nothing, after);
    PiecesRead(ps, after);
    GroupAtom(PiecesText(ps, after), a, tail);
    AtomThen("(?:" + PiecesText(ps, after), a, tail);
  }

  function GlobRe(ps: seq<Piece>): Option<Re> {
    var r := PiecesToRe(ps, Some(Cat(End, Nothing)));
    if r == None then None else Some(Cat(Begin, r.value))
  }

  /** The text is a well-formed expression unless a class has a range that goes backwards. */
  lemma TextParses(ps: seq<Piece>)
    requires AllMade(ps)
    ensures Parse("^" + PiecesText(ps, "$")) == GlobRe(ps)
  {
    assert ParseCat("") == Regex.Read(Nothing, "") && "$"[1..] == "";
    AtomThen("$", Some(End), "");
    PiecesRead(ps, "$");
    var t := PiecesText(ps, "$");
    assert ("^" + t)[1..] == t;
    AtomThen("^" + t, Some(Begin), t);
  }

  // -------------------------------------- and matches what the glob does

  lemma SlashRange(c: char, ranges: seq<Range>)
    ensures InRanges(c, [Range('/', '/')] + ranges) <==> c == '/' || InRanges(c, ranges)
  {
    var all := [Range('/', '/')] + ranges;
    assert all[0] == Range('/', '/');
    if InRanges(c, ranges) {
      var r :| r in ranges && r.lo <= c <= r.hi;
      assert r in all;
    }
  }

  /** The characters a starred class or dot takes. */
  predicate Takes(re: Re, c: char) {
    match re
    case Dot => c != '\n'
    case Class(negated, ranges) => InRanges(c, ranges) != negated
    case _ => false
  }

  lemma {:induction false} StarMeans(re: Re, s: string, i: nat, j: nat)
    requires i <= j <= |s| && (re.Dot? || re.Class?)
    ensures Matches(Star(re), s, i, j) <==> forall k | i <= k < j :: Takes(re, s[k])
    decreases j - i
  {
    if i < j {
      StarMeans(re, s, i + 1, j);
      if Takes(re, s[i]) && Matches(Star(re), s, i + 1, j) {
        assert Matches(re, s, i, i + 1);
      }
    }
  }

  lemma InSlice(s: string, i: nat, j: nat, c: char)
    requires i <= j <= |s|
    ensures c !in s[i..j] <==> forall k | i <= k < j :: s[k] != c
  {
    assert forall k | i <= k < j :: s[k] == s[i..j][k - i];
  }

  lemma {:induction false} PieceMeans(p: Piece, re: Re, s: string, i: nat, j: nat)
    requires Made(p) && ToRe(p) == Some(re) && i <= j <= |s|
    ensures Matches(re, s, i, j) <==> PieceMatches(p, s[i..j], false)
    decreases p, 0
  {
    match p
    case AnyOne => SlashRangeOnly();
    case AnySegment =>
      SlashRangeOnly();
      StarMeans(Class(true, [Range('/', '/')]), s, i, j);
      InSlice(s, i, j, '/');
    case AnyPath =>
      StarMeans(Dot, s, i, j);
      InSlice(s, i, j, '\n');
    case Set(negated, toks) =>
      if j == i + 1 {
        SlashRange(s[i], RangesOf(toks));
        NothingAfter(Class(false, RangesOf(toks)), s, i, j);
      } else if !negated {
        NothingAfter(Class(false, RangesOf(toks)), s, i, j);
      }
    case Choice(choices) => ChoicesMean(choices, re, s, i, j);
    case Literal(_) =>
  }

  lemma SlashRangeOnly()
    ensures forall c :: InRanges(c, [Range('/', '/')]) <==> c == '/'
  {
    forall c
      ensures InRanges(c, [Range('/', '/')]) <==> c == '/'
    {
      SlashRange(c, []);
      assert [Range('/', '/')] + [] == [Range('/', '/')];
    }
  }

  lemma {:induction false} ChoicesMean(choices: seq<Way>, re: Re, s: string, i: nat, j: nat)
    requires (forall w <- choices :: AllMade(w.pieces)) && ChoicesToRe(choices) == Some(re) && i <= j <= |s|
    ensures Matches(re, s, i, j) <==> exists w <- choices :: GlobMatches(w.pieces, s[i..j], false)
    decreases choices, 2
  {
    var a := PiecesToRe(choices[0].pieces, Some(Nothing)).value;
    PiecesMean(choices[0].pieces, a, Nothing, s, i, j);
    NothingAfter(a, s, i, j);
    assert s[i..j][..j - i] == s[i..j];
    if |choices| > 1 {
      ChoicesMean(choices[1..], re.right, s, i, j);
      Uncons(choices);
    }
  }

  lemma NothingAfter(a: Re, s: string, i: nat, j: nat)
    requires i <= j <= |s|
    ensures Matches(Cat(a, Nothing), s, i, j) <==> Matches(a, s, i, j)
  {
    if Matches(a, s, i, j) {
      assert Matches(Nothing, s, j, j);
    }
  }

  lemma CatSplit(a: Re, b: Re, s: string, i: nat, j: nat) returns (m: nat)
    requires i <= j <= |s| && Matches(Cat(a, b), s, i, j)
    ensures i <= m <= j && Matches(a, s, i, m) && Matches(b, s, m, j)
  {
    m :| i <= m <= j && Matches(a, s, i, m) && Matches(b, s, m, j);
  }

  /** s from i to j is the pieces, up to some k, and then what the tail matches. */
  ghost predicate PiecesThen(ps: seq<Piece>, tail: Re, s: string, i: nat, j: nat)
    requires i <= j <= |s|
  {
    exists k | i <= k <= j :: GlobMatches(ps, s[i..k], false) && Matches(tail, s, k, j)
  }

  lemma PiecesJoin(ps: seq<Piece>, tail: Re, s: string, i: nat, m: nat, j: nat)
    requires ps != [] && i <= m <= j <= |s|
    requires PieceMatches(ps[0], s[i..m], false) && PiecesThen(ps[1..], tail, s, m, j)
    ensures PiecesThen(ps, tail, s, i, j)
  {
    var k :| m <= k <= j && GlobMatches(ps[1..], s[m..k], false) && Matches(tail, s, k, j);
    assert s[i..k][..m - i] == s[i..m] && s[i..k][m - i..] == s[m..k];
    assert GlobMatches(ps, s[i..k], false);
  }

  lemma PiecesSplit(ps: seq<Piece>, tail: Re, s: string, i: nat, j: nat) returns (m: nat)
    requires ps != [] && i <= j <= |s| && PiecesThen(ps, tail, s, i, j)
    ensures i <= m <= j && PieceMatches(ps[0], s[i..m], false) && PiecesThen(ps[1..], tail, s, m, j)
  {
    var k := PiecesEnd(ps, tail, s, i, j);
    var t := s[i..k];
    var n := FirstPiece(ps, t);
    m := i + n;
    Within(s, i, m, k);
    PiecesFrom(ps[1..], tail, s, m, k, j);
  }

  lemma PiecesEnd(ps: seq<Piece>, tail: Re, s: string, i: nat, j: nat) returns (k: nat)
    requires i <= j <= |s| && PiecesThen(ps, tail, s, i, j)
    ensures i <= k <= j && GlobMatches(ps, s[i..k], false) && Matches(tail, s, k, j)
  {
    k :| i <= k <= j && GlobMatches(ps, s[i..k], false) && Matches(tail, s, k, j);
  }

  lemma PiecesFrom(ps: seq<Piece>, tail: Re, s: string, i: nat, k: nat, j: nat)
    requires i <= k <= j <= |s| && GlobMatches(ps, s[i..k], false) && Matches(tail, s, k, j)
    ensures PiecesThen(ps, tail, s, i, j)
  {}

  lemma FirstPiece(ps: seq<Piece>, t: string) returns (n: nat)
    requires ps != [] && GlobMatches(ps, t, false)
    ensures n <= |t| && PieceMatches(ps[0], t[..n], false) && GlobMatches(ps[1..], t[n..], false)
  {
    n :| 0 <= n <= |t| && PieceMatches(ps[0], t[..n], false) && GlobMatches(ps[1..], t[n..], false);
  }

  lemma Within(s: string, i: nat, m: nat, k: nat)
    requires i <= m <= k <= |s|
    ensures s[i..k][..m - i] == s[i..m] && s[i..k][m - i..] == s[m..k]
  {}

  lemma CatJoin(a: Re, b: Re, s: string, i: nat, m: nat, j: nat)
    requires i <= m <= j <= |s| && Matches(a, s, i, m) && Matches(b, s, m, j)
    ensures Matches(Cat(a, b), s, i, j)
  {}

  lemma {:induction false} PiecesMean(ps: seq<Piece>, re: Re, tail: Re, s: string, i: nat, j: nat)
    requires AllMade(ps) && PiecesToRe(ps, Some(tail)) == Some(re) && i <= j <= |s|
    ensures Matches(re, s, i, j) <==> PiecesThen(ps, tail, s, i, j)
    decreases ps, 1
  {
    if ps == [] {
      assert s[i..i] == "";
    } else {
      var a, b := re.first, re.second;
      assert re == Cat(a, b) && Made(ps[0]) && AllMade(ps[1..]);
      if Matches(re, s, i, j) {
        var m := CatSplit(a, b, s, i, j);
        PieceMeans(ps[0], a, s, i, m);
        PiecesMean(ps[1..], b, tail, s, m, j);
        PiecesJoin(ps, tail, s, i, m, j);
      }
      if PiecesThen(ps, tail, s, i, j) {
        var m := PiecesSplit(ps, tail, s, i, j);
        PieceMeans(ps[0], a, s, i, m);
        PiecesMean(ps[1..], b, tail, s, m, j);
        CatJoin(a, b, s, i, m, j);
      }
    }
  }

  /** The compiled expression matches a path, anywhere in it, exactly when the glob is all of it. */
  lemma GlobMeans(ps: seq<Piece>, path: string)
    requires AllMade(ps) && GlobRe(ps).Some?
    ensures MatchString(GlobRe(ps).value, path) <==> GlobMatches(ps, path, false)
  {
    var body := PiecesToRe(ps, Some(Cat(End, Nothing))).value;
    WholeMeans(ps, body, path);
    if MatchString(Cat(Begin, body), path) {
      var i: nat, j: nat :| i <= j <= |path| && Matches(Cat(Begin, body), path, i, j);
      var m := CatSplit(Begin, body, path, i, j);
      EndsThere(ps, body, path, j);
    }
    if Matches(body, path, 0, |path|) {
      assert Matches(Begin, path, 0, 0);
      assert Matches(Cat(Begin, body), path, 0, |path|);
    }
  }

  lemma EndsThere(ps: seq<Piece>, body: Re, path: string, j: nat)
    requires AllMade(ps) && PiecesToRe(ps, Some(Cat(End, Nothing))) == Some(body) && j <= |path|
    requires Matches(body, path, 0, j)
    ensures j == |path|
  {
    PiecesMean(ps, body, Cat(End, Nothing), path, 0, j);
    var k :| 0 <= k <= j && GlobMatches(ps, path[0..k], false) && Matches(Cat(End, Nothing), path, k, j);
    NothingAfter(End, path, k, j);
  }

  lemma WholeMeans(ps: seq<Piece>, body: Re, path: string)
    requires AllMade(ps) && PiecesToRe(ps, Some(Cat(End, Nothing))) == Some(body)
    ensures Matches(body, path, 0, |path|) <==> GlobMatches(ps, path, false)
  {
    var tail, n := Cat(End, Nothing), |path|;
    PiecesMean(ps, body, tail, path, 0, n);
    assert path[0..n] == path;
    forall k | 0 <= k <= n
      ensures Matches(tail, path, k, n) <==> k == n
    {
      NothingAfter(End, path, k, n);
    }
  }

  // ---------------------------------------------------------- as documented

  /** The class takes no separator: no range of it goes across one. */
  predicate NoSlash(p: Piece) {
    match p
    case Set(negated, toks) => negated || !InRanges('/', RangesOf(toks))
    case Choice(choices) => forall w <- choices :: forall q <- w.pieces :: NoSlash(q)
    case _ => true
  }

  /** The piece has no "**", which alone is stopped by line ends. */
  predicate StaysInLine(p: Piece) {
    match p
    case AnyPath => false
    case Choice(choices) => forall w <- choices :: forall q <- w.pieces :: StaysInLine(q)
    case _ => true
  }

  lemma {:induction false} PieceDocumented(p: Piece, t: string)
    requires NoSlash(p) && ('\n' !in t || StaysInLine(p))
    ensures PieceMatches(p, t, true) <==> PieceMatches(p, t, false)
    decreases p, 0
  {
    if p.Choice? {
      forall w | w in p.choices
        ensures GlobMatches(w.pieces, t, true) <==> GlobMatches(w.pieces, t, false)
      {
        Documented(w.pieces, t);
      }
    }
  }

  /**
   What a glob matches is what is documented for it, when no range of a class goes across a separator: of
   paths without a line end, and without "**" of every path.
   */
  lemma {:induction false} Documented(ps: seq<Piece>, path: string)
    requires (forall p <- ps :: NoSlash(p)) && ('\n' !in path || forall p <- ps :: StaysInLine(p))
    ensures GlobMatches(ps, path, true) <==> GlobMatches(ps, path, false)
    decreases ps, 1
  {
    if ps != [] {
      forall k | 0 <= k <= |path|
        ensures PieceMatches(ps[0], path[..k], true) == PieceMatches(ps[0], path[..k], false)
        ensures GlobMatches(ps[1..], path[k..], true) == GlobMatches(ps[1..], path[k..], false)
      {
        assert ps[0] in ps && forall p <- ps[1..] :: p in ps;
        PieceDocumented(ps[0], path[..k]);
        Documented(ps[1..], path[k..]);
      }
    }
  }

  /** A path is one every glob of this kind matches as documented exactly when it has no line end. */
  lemma LineEndsOnly(path: string)
    ensures '\n' !in path
       <==> forall ps | forall p <- ps :: NoSlash(p) :: GlobMatches(ps, path, true) == GlobMatches(ps, path, false)
  {
    if '\n' in path {
      var ps := [AnyPath];
      var n := |path|;
      assert ps[1..] == [] && path[n..] == "" && path[..n] == path;
      assert GlobMatches(ps, path, true) by {
        assert PieceMatches(ps[0], path[..n], true) && GlobMatches(ps[1..], path[n..], true);
      }
      assert !GlobMatches(ps, path, false);
      assert forall p <- ps :: NoSlash(p);
    } else {
      forall ps | forall p <- ps :: NoSlash(p)
        ensures GlobMatches(ps, path, true) == GlobMatches(ps, path, false)
      {
        Documented(ps, path);
      }
    }
  }

  /** The expression of a class matches what is documented for it exactly when no range goes across a separator. */
  lemma SlashOnly(p: Piece, re: Re)
    requires p.Set? && Made(p) && GlobRe([p]) == Some(re)
    ensures (forall path :: MatchString(re, path) <==> GlobMatches([p], path, true)) <==> NoSlash(p)
  {
    var ps := [p];
    assert ps[1..] == [] && "/"[..1] == "/" && "/"[1..] == "";
    if NoSlash(p) {
      forall path
        ensures MatchString(re, path) <==> GlobMatches(ps, path, true)
      {
        GlobMeans(ps, path);
        Documented(ps, path);
      }
    } else {
      GlobMeans(ps, "/");
      assert GlobMatches(ps, "/", false) by {
        assert PieceMatches(ps[0], "/"[..1], false) && GlobMatches(ps[1..], "/"[1..], false);
      }
      assert !GlobMatches(ps, "/", true);
    }
  }

  // ------------------------------------------------------- what the loop emits

  /** No class that is not negated is empty: nothing would be between its brackets. */
  predicate NoEmptySet(p: Piece) {
    match p
    case Set(negated, toks) => negated || toks != []
    case Choice(choices) => forall w <- choices :: forall q <- w.pieces :: NoEmptySet(q)
    case _ => true
  }

  lemma {:induction false} SetToksMade(g: string)
    ensures var r := SetToks(g); r.Read? ==> forall t <- r.value :: TokMade(t)
    ensures var r := SetToks(g); r.Read? && r.value != [] ==> r.value[0].c == g[0]
  {
    if g != "" && g[0] != '/' && g[0] != ']' {
      SetToksMade(g[1..]);
    }
  }

  lemma PieceMade(g: string)
    requires g != "" && ReadPiece(g).Read? && NoEmptySet(ReadPiece(g).value)
    ensures Made(ReadPiece(g).value)
  {
    if g[0] == '[' {
      var body := g[1..];
      var negated := body != "" && body[0] == '!';
      body := if negated then body[1..] else body;
      var first := body != "" && (body[0] == '-' || (body[0] == '^' && !negated));
      SetToksMade(if first then body[1..] else body);
    }
  }

  lemma {:induction false} ChoiceMade(g: string)
    ensures var r := ReadChoice(g);
            r.Read? ==> r.rest != "" && (r.rest[0] == ',' || r.rest[0] == '}')
                        && ((forall p <- r.value :: NoEmptySet(p)) ==> AllMade(r.value))
    decreases |g|
  {
    if g != "" && g[0] != '{' && g[0] != ',' && g[0] != '}' {
      var p := ReadPiece(g);
      if p.Read? {
        ChoiceMade(p.rest);
        if NoEmptySet(p.value) {
          PieceMade(g);
        }
        if ReadChoice(p.rest).Read? {
          assert p.value in ReadChoice(g).value;
          assert forall q <- ReadChoice(p.rest).value :: q in ReadChoice(g).value;
        }
      }
    }
  }

  lemma {:induction false} ChoicesMade(g: string)
    ensures var r := ReadChoices(g);
            r.Read? ==> (forall w <- r.value :: (forall p <- w.pieces :: NoEmptySet(p)) ==> AllMade(w.pieces))
    decreases |g|
  {
    var choice := ReadChoice(g);
    ChoiceMade(g);
    if choice.Read? && choice.rest[0] == ',' {
      ChoicesMade(choice.rest[1..]);
    }
  }

  lemma {:induction false} PiecesMade(g: string)
    ensures var r := Pieces(g); r.Some? && (forall p <- r.value :: NoEmptySet(p)) ==> AllMade(r.value)
    decreases |g|
  {
    if g != "" && Pieces(g).Some? {
      var ps := Pieces(g).value;
      var p := if g[0] == '{' then GroupPiece(ReadChoices(g[1..])) else ReadPiece(g);
      PiecesMade(p.rest);
      ChoicesMade(g[1..]);
      if forall q <- ps :: NoEmptySet(q) {
        assert NoEmptySet(ps[0]);
        assert forall q <- ps[1..] :: q in ps;
        if g[0] != '{' {
          PieceMade(g);
        }
      }
    }
  }

  /** No class of the expression is of nothing, which a parsed one never is. */
  predicate NoEmptyClass(re: Re) {
    match re
    case Class(_, ranges) => ranges != []
    case Star(r) => NoEmptyClass(r)
    case Cat(a, b) => NoEmptyClass(a) && NoEmptyClass(b)
    case Alt(a, b) => NoEmptyClass(a) && NoEmptyClass(b)
    case _ => true
  }

  lemma ClassHasRange(t: string)
    ensures var r := ParseClass(t); r.Read? ==> NoEmptyClass(r.value)
  {
  }

  lemma {:induction false} AtomHasRanges(t: string)
    requires t != ""
    ensures var r := ParseAtom(t); r.Read? ==> NoEmptyClass(r.value)
    decreases |t|, 0
  {
    if t[0] == '[' {
      ClassHasRange(t[1..]);
    } else if t[0] == '(' && |t| >= 3 {
      AltHasRanges(t[3..]);
    }
  }

  lemma {:induction false} CatHasRanges(t: string)
    ensures var r := ParseCat(t); r.Read? ==> NoEmptyClass(r.value)
    decreases |t|, 1
  {
    if t != "" && t[0] != '|' && t[0] != ')' {
      AtomHasRanges(t);
      var atom := ParseAtom(t);
      if atom.Read? {
        CatHasRanges(if atom.rest != "" && atom.rest[0] == '*' then atom.rest[1..] else atom.rest);
      }
    }
  }

  lemma {:induction false} AltHasRanges(t: string)
    ensures var r := ParseAlt(t); r.Read? ==> NoEmptyClass(r.value)
    decreases |t|, 2
  {
    CatHasRanges(t);
    var a := ParseCat(t);
    if a.Read? && a.rest != "" && a.rest[0] == '|' {
      AltHasRanges(a.rest[1..]);
    }
  }

  lemma {:induction false} EmptySetIsEmptyClass(p: Piece)
    requires !NoEmptySet(p) && ToRe(p).Some?
    ensures !NoEmptyClass(ToRe(p).value)
    decreases p, 0
  {
    if p.Choice? {
      EmptyWayIsEmptyClass(p.choices);
    }
  }

  lemma {:induction false} EmptyWayIsEmptyClass(choices: seq<Way>)
    requires ChoicesToRe(choices).Some?
    requires exists w <- choices :: exists p <- w.pieces :: !NoEmptySet(p)
    ensures !NoEmptyClass(ChoicesToRe(choices).value)
    decreases choices, 2
  {
    if exists p <- choices[0].pieces :: !NoEmptySet(p) {
      EmptyPieceIsEmptyClass(choices[0].pieces, Some(Nothing));
    } else {
      assert forall w <- choices :: w == choices[0] || w in choices[1..];
      EmptyWayIsEmptyClass(choices[1..]);
    }
  }

  lemma {:induction false} EmptyPieceIsEmptyClass(ps: seq<Piece>, tail: Option<Re>)
    requires PiecesToRe(ps, tail).Some? && exists p <- ps :: !NoEmptySet(p)
    ensures !NoEmptyClass(PiecesToRe(ps, tail).value)
    decreases ps, 1
  {
    if !NoEmptySet(ps[0]) {
      EmptySetIsEmptyClass(ps[0]);
    } else {
      assert forall p <- ps :: p == ps[0] || p in ps[1..];
      EmptyPieceIsEmptyClass(ps[1..], tail);
    }
  }

  /** The text written for a glob is its own expression's exactly when it has no empty class. */
  lemma TextParsesUnlessEmpty(g: string)
    ensures var ps := Pieces(g);
            ps.Some? && GlobRe(ps.value).Some? ==>
              (Parse("^" + PiecesText(ps.value, "$")) == GlobRe(ps.value) <==> forall p <- ps.value :: NoEmptySet(p))
  {
    var ps := Pieces(g);
    if ps.Some? && GlobRe(ps.value).Some? {
      PiecesMade(g);
      if forall p <- ps.value :: NoEmptySet(p) {
        TextParses(ps.value);
      } else {
        EmptyPieceIsEmptyClass(ps.value, Some(Cat(End, Nothing)));
        AltHasRanges("^" + PiecesText(ps.value, "$"));
      }
    }
  }

  function Prepend(text: string, t: Option<string>): Option<string> {
    if t == None then None else Some(text + t.value)
  }

  /** What the loop writes from here on, inside a group or not, and then rest. */
  function Emit(g: string, inGroup: bool, rest: string): Option<string>
    decreases |g|
  {
    if g == "" then if inGroup then None else Some(rest)
    else if g[0] == '{' then if inGroup then None else Prepend("(?:(?:", Emit(g[1..], true, rest))
    else if inGroup && g[0] == '}' then Prepend("))", Emit(g[1..], false, rest))
    else if inGroup && g[0] == ',' then Prepend(")|(?:", Emit(g[1..], true, rest))
    else
      var p := ReadPiece(g);
      if p.Bad? then None
      else
        var more := Emit(p.rest, inGroup, rest);
        if more == None then None else Some(PieceText(p.value, more.value))
  }

  lemma {:induction false} EmitChoice(g: string, rest: string)
    ensures var c := ReadChoice(g);
            Emit(g, true, rest)
            == if c.Bad? then None
               else
                 var last := c.rest[0] == '}';
                 var more := Emit(c.rest[1..], !last, rest);
                 if more == None then None
                 else Some(PiecesText(c.value, (if last then "))" else ")|(?:") + more.value))
    decreases |g|
  {
    ChoiceMade(g);
    if g != "" && g[0] != '{' && g[0] != ',' && g[0] != '}' {
      var p := ReadPiece(g);
      if p.Read? {
        ChoiceMade(p.rest);
        EmitChoice(p.rest, rest);
        if ReadChoice(p.rest).Read? {
          Cons(p.value, ReadChoice(p.rest).value);
        }
      }
    }
  }

  /** The text of a group after it opens, and then t. */
  function GroupTail(choices: seq<Way>, t: string): string
    requires choices != []
  {
    PiecesText(choices[0].pieces, ")" + if |choices| == 1 then ")" + t else "|" + ChoicesText(choices[1..], t))
  }

  lemma {:induction false} EmitChoices(g: string, rest: string)
    ensures var c := ReadChoices(g);
            Emit(g, true, rest)
            == if c.Bad? then None
               else
                 var more := Emit(c.rest, false, rest);
                 if more == None then None else Some(GroupTail(c.value, more.value))
    decreases |g|
  {
    var choice := ReadChoice(g);
    ChoiceMade(g);
    EmitChoice(g, rest);
    if choice.Read? {
      var left := choice.rest[1..];
      if choice.rest[0] == '}' {
        var more := Emit(left, false, rest);
        assert more.Some? ==> "))" + more.value == ")" + (")" + more.value);
      } else {
        EmitChoices(left, rest);
        var c := ReadChoices(left);
        if c.Read? && Emit(c.rest, false, rest).Some? {
          TailJoins(choice.value, c.value, Emit(c.rest, false, rest).value);
        }
      }
    }
  }

  lemma TailJoins(ps: seq<Piece>, choices: seq<Way>, t: string)
    requires choices != []
    ensures GroupTail([Way(ps)] + choices, t) == PiecesText(ps, ")|(?:" + GroupTail(choices, t))
  {
    Cons(Way(ps), choices);
    var tail := GroupTail(choices, t);
    assert ChoicesText(choices, t) == "(?:" + tail;
    assert ")|(?:" + tail == ")" + ("|" + ("(?:" + tail));
  }

  lemma EmitGroup(g: string, rest: string)
    requires g != "" && g[0] == '{'
    ensures var c := ReadChoices(g[1..]);
            Emit(g, false, rest)
            == if c.Bad? || Emit(c.rest, false, rest) == None then None
               else Some(PieceText(Choice(c.value), Emit(c.rest, false, rest).value))
  {
    EmitChoices(g[1..], rest);
    var c := ReadChoices(g[1..]);
    if c.Read? && Emit(c.rest, false, rest).Some? {
      var t := Emit(c.rest, false, rest).value;
      assert ChoicesText(c.value, t) == "(?:" + GroupTail(c.value, t);
      assert "(?:(?:" + GroupTail(c.value, t) == "(?:" + ("(?:" + GroupTail(c.value, t));
    }
  }

  /** The loop writes the text of the glob's pieces. */
  lemma {:induction false} EmitPieces(g: string, rest: string)
    ensures Emit(g, false, rest) == if Pieces(g) == None then None else Some(PiecesText(Pieces(g).value, rest))
    decreases |g|
  {
    if g != "" {
      var p := if g[0] == '{' then GroupPiece(ReadChoices(g[1..])) else ReadPiece(g);
      if g[0] == '{' {
        EmitGroup(g, rest);
      }
      if p.Read? {
        EmitPieces(p.rest, rest);
        if Pieces(p.rest).Some? {
          Cons(p.value, Pieces(p.rest).value);
        }
      }
    }
  }

  // ---------------------------------------------------------------- the code

  lemma {:induction false} ToksThen(toks: seq<Tok>, a: string, b: string)
    ensures ToksText(toks, a + b) == ToksText(toks, a) + b
  {
    if toks != [] {
      ToksThen(toks[1..], a, b);
    }
  }

  lemma SetThen(p: Piece, t: string)
    requires p.Set?
    ensures PieceText(p, t) == PieceText(p, "") + t
  {
    ToksThen(p.toks, "]", t);
    ToksThen(p.toks, "])", t);
    assert "]" + "" == "]" && "])" + "" == "])";
  }

  lemma {:induction false} ToksAppend(toks: seq<Tok>, t: Tok)
    ensures ToksText(toks + [t], "") == ToksText(toks, "") + TokText(t)
  {
    if toks == [] {
      assert [t][1..] == [];
    } else {
      ToksAppend(toks[1..], t);
      assert (toks + [t])[1..] == toks[1..] + [t];
    }
  }

  /** A class's text with one more character, escaped when it must be. */
  function Escaped(c: char): string {
    if c == '\\' || c == '[' || c == ']' || c == '^' then "\\" + [c] else [c]
  }

  lemma TokAdds(toks: seq<Tok>, c: char)
    requires c != ']'
    ensures ToksText(toks + [Tok(c, c in "\\[^")], "") == ToksText(toks, "") + Escaped(c)
  {
    ToksAppend(toks, Tok(c, c in "\\[^"));
  }

  /** One more character of a class read, of those from here on. */
  lemma ToksMore(toks: seq<Tok>, s: string, goal: Read<seq<Tok>>)
    requires s != "" && s[0] != '/' && s[0] != ']' && Reached(toks, s, goal)
    ensures Reached(toks + [Tok(s[0], s[0] in "\\[^")], s[1..], goal)
  {
    var r := SetToks(s[1..]);
    if r.Read? {
      assert toks + ([Tok(s[0], s[0] in "\\[^")] + r.value) == (toks + [Tok(s[0], s[0] in "\\[^")]) + r.value;
    }
  }

  /** What is read of a class, and what is left of it. */
  ghost predicate Reached(toks: seq<Tok>, s: string, goal: Read<seq<Tok>>) {
    var r := SetToks(s);
    goal == if r.Bad? then Regex.Bad else Regex.Read(toks + r.value, r.rest)
  }

  /** The text of a class's characters from start up to its "]", and where that is. */
  method ScanClass(rs: string, start: nat) returns (text: Option<string>, next: nat)
    requires start <= |rs|
    ensures start <= next <= |rs|
    ensures var r := SetToks(rs[start..]);
            if r.Bad? then text == None else text == Some(ToksText(r.value, "")) && rs[next..] == r.rest
  {
    var body, i := "", start;
    ghost var toks: seq<Tok> := [];
    ghost var goal := SetToks(rs[start..]);
    assert goal.Read? ==> [] + goal.value == goal.value;
    while i < |rs|
      invariant start <= i <= |rs| && body == ToksText(toks, "") && Reached(toks, rs[i..], goal)
    {
      var c := rs[i];
      assert rs[i..][1..] == rs[i + 1..];
      i := i + 1;
      if c == ']' {
        assert toks + [] == toks;
        return Some(body), i;
      }
      if c == '/' {
        return None, i;
      }
      ToksMore(toks, rs[i - 1..], goal);
      TokAdds(toks, c);
      toks := toks + [Tok(c, c in "\\[^")];
      if c == '\\' || c == '[' || c == ']' || c == '^' {
        body := body + ("\\" + [c]);
      } else {
        body := body + [c];
      }
    }
    return None, i;
  }

  /** The class after its "[" at start: its text and where it ends, or an error. */
  method CompileClass(rs: string, start: nat) returns (text: Option<string>, next: nat)
    requires start <= |rs|
    ensures start <= next <= |rs|
    ensures var r := ReadSet(rs[start..]);
            if r.Bad? then text == None
            else r.value.Set? && text == Some(PieceText(r.value, "")) && rs[next..] == r.rest
  {
    var first, i, negate := "", start, false;
    ghost var g := rs[start..];
    if i < |rs| && rs[i] == '^' {
      first, i := "\\^", i + 1;
    } else if i < |rs| && rs[i] == '!' {
      negate, i := true, i + 1;
      if i < |rs| && rs[i] == '-' {
        first, i := "\\-", i + 1;
      }
    } else if i < |rs| && rs[i] == '-' {
      first, i := "\\-", i + 1;
    }
    ghost var toks := if first == "" then [] else [Tok(first[1], true)];
    ghost var inner := if negate then g[1..] else g;
    assert rs[i..] == if first == "" then inner else inner[1..];
    var body, end := ScanClass(rs, i);
    if body == None {
      return None, end;
    }
    ghost var more := SetToks(rs[i..]).value;
    assert ReadSet(g) == Regex.Read(Set(negate, toks + more), rs[end..]);
    ClassText(negate, first, toks, more);
    return Some(if negate then "[^/" + (first + body.value) + "]" else "(?:[" + (first + body.value) + "])"), end;
  }

  lemma EscapedFirst(first: string, toks: seq<Tok>, more: seq<Tok>)
    requires first == "" || (|first| == 2 && first[0] == '\\')
    requires toks == if first == "" then [] else [Tok(first[1], true)]
    ensures ToksText(toks + more, "") == first + ToksText(more, "")
  {
    if first == "" {
      assert toks + more == more && first + ToksText(more, "") == ToksText(more, "");
    } else {
      Cons(toks[0], more);
      assert first == ['\\', first[1]];
    }
  }

  lemma ClassText(negate: bool, first: string, toks: seq<Tok>, more: seq<Tok>)
    requires first == "" || (|first| == 2 && first[0] == '\\')
    requires toks == if first == "" then [] else [Tok(first[1], true)]
    ensures var text := first + ToksText(more, "");
            PieceText(Set(negate, toks + more), "")
            == if negate then "[^/" + text + "]" else "(?:[" + text + "])"
  {
    var text := first + ToksText(more, "");
    EscapedFirst(first, toks, more);
    ToksThen(toks + more, "", "]");
    ToksThen(toks + more, "", "])");
    assert "" + "]" == "]" + "" && "" + "])" == "])" + "";
  }

  /** Whether goal is what is already written and what is left to write from here on. */
  ghost predicate Leads(written: string, left: Option<string>, goal: Option<string>) {
    goal == Prepend(written, left)
  }

  lemma LeadsOn(written: string, text: string, left: Option<string>, goal: Option<string>)
    requires Leads(written, Prepend(text, left), goal)
    ensures Leads(written + text, left, goal)
  {
    if left.Some? {
      assert (written + text) + left.value == written + (text + left.value);
    }
  }

  method GlobText(rs: string) returns (text: Option<string>)
    ensures text == Prepend("^", Emit(rs, false, "$"))
  {
    var re, inGroup, i := "^", false, 0;
    ghost var goal := Prepend("^", Emit(rs, false, "$"));
    assert rs[0..] == rs;
    while i < |rs|
      invariant i <= |rs| && Leads(re, Emit(rs[i..], inGroup, "$"), goal)
    {
      var c := rs[i];
      ghost var g, was := rs[i..], inGroup;
      assert g[0] == c && g[1..] == rs[i + 1..] && (i + 1 < |rs| ==> g[1] == rs[i + 1] && g[2..] == rs[i + 2..]);
      i := i + 1;
      var out := "";
      match c {
        case '\\' =>
          if i == |rs| {
            return None;
          }
          out, i := QuoteMeta(rs[i]), i + 1;
        case '[' =>
          var set_, next := CompileClass(rs, i);
          if set_ == None {
            return None;
          }
          out, i := set_.value, next;
          ghost var piece := ReadSet(g[1..]).value;
          ghost var left := Emit(rs[next..], inGroup, "$");
          if left.Some? {
            SetThen(piece, left.value);
          }
        case '{' =>
          if inGroup {
            return None;
          }
          out, inGroup := "(?:(?:", true;
        case '}' =>
          out := if inGroup then "))" else "\\}";
          inGroup := false;
        case ',' =>
          out := if inGroup then ")|(?:" else ",";
        case '*' =>
          if i < |rs| && rs[i] == '*' {
            out, i := ".*", i + 1;
          } else {
            out := "[^/]*";
          }
        case '?' => out := "[^/]";
        case _ => out := QuoteMeta(c);
      }
      assert Emit(g, was, "$") == Prepend(out, Emit(rs[i..], inGroup, "$"));
      LeadsOn(re, out, Emit(rs[i..], inGroup, "$"), goal);
      re := re + out;
    }
    assert rs[i..] == "";
    if inGroup {
      return None;
    }
    return Some(re + "$");
  }

  /** The expression the glob is translated into, or its error. */
  method CompileGlob(glob: string) returns (re: Option<Re>)
    ensures re == if Pieces(glob) == None then None else Parse("^" + PiecesText(Pieces(glob).value, "$"))
    ensures var ps := Pieces(glob);
            ps.Some? && GlobRe(ps.value).Some? ==> (re == GlobRe(ps.value) <==> forall p <- ps.value :: NoEmptySet(p))
    ensures var ps := Pieces(glob);
            ps.Some? && (forall p <- ps.value :: NoEmptySet(p)) ==>
              && re == GlobRe(ps.value)
              && (re.Some? ==> forall path :: MatchString(re.value, path) <==> GlobMatches(ps.value, path, false))
    ensures var ps := Pieces(glob);
            ps.Some? && (forall p <- ps.value :: NoEmptySet(p) && NoSlash(p)) && re.Some? ==>
              forall path | '\n' !in path || (forall p <- ps.value :: StaysInLine(p)) ::
                MatchString(re.value, path) <==> GlobMatches(ps.value, path, true)
  {
    TextParsesUnlessEmpty(glob);
    var text := GlobText(glob);
    EmitPieces(glob, "$");
    if text == None {
      return None;
    }
    re := Parse(text.value);
    var ps := Pieces(glob).value;
    PiecesMade(glob);
    if forall p <- ps :: NoEmptySet(p) {
      TextParses(ps);
      if re.Some? {
        forall path
          ensures MatchString(re.value, path) <==> GlobMatches(ps, path, false)
        {
          GlobMeans(ps, path);
        }
        if forall p <- ps :: NoSlash(p) {
          forall path | '\n' !in path || (forall p <- ps :: StaysInLine(p))
            ensures MatchString(re.value, path) <==> GlobMatches(ps, path, true)
          {
            GlobMeans(ps, path);
            Documented(ps, path);
          }
        }
      }
    }
  }

  /** One more character of a class, which stands for itself. */
  lemma OneMore(c: char, t: string, toks: seq<Tok>, rest: string, first: bool)
    requires c != '\\' && (c == '[' ==> t == "" || t[0] != ':') && (c == ']' ==> first)
    requires ClassToks(t, false) == Regex.Read(toks, rest)
    ensures ClassToks([c] + t, first) == Regex.Read([Tok(c, false)] + toks, rest)
  {
    Cons(c, t);
  }

  function PlainToks(t: string): seq<Tok> {
    if t == "" then [] else [Tok(t[0], false)] + PlainToks(t[1..])
  }

  lemma {:induction false} PlainThen(t: string, more: string, toks: seq<Tok>, rest: string)
    requires (forall c <- t :: c != '\\' && c != ']' && c != '[') && ClassToks(more, false) == Regex.Read(toks, rest)
    ensures ClassToks(t + more, false) == Regex.Read(PlainToks(t) + toks, rest)
  {
    if t == "" {
      assert t + more == more && PlainToks(t) + toks == toks;
    } else {
      assert forall c <- t[1..] :: c in t;
      PlainThen(t[1..], more, toks, rest);
      assert t[0] in t;
      Uncons(t);
      Assoc([t[0]], t[1..], more);
      OneMore(t[0], t[1..] + more, PlainToks(t[1..]) + toks, rest, false);
      Assoc([Tok(t[0], false)], PlainToks(t[1..]), toks);
    }
  }

  /** The class "])(?:[x]" ends at its last "]": the first stands for itself. */
  lemma SwallowingClass(rest: string) returns (toks: seq<Tok>)
    ensures ClassToks("])(?:[x]" + rest, true) == Regex.Read(toks, rest)
    ensures |toks| == 7 && toks[1] == Tok(')', false) && forall t <- toks :: t.c != '-'
  {
    Cons(']', rest);
    OneMore('x', [']'] + rest, [], rest, false);
    var x, k := ['x'] + ([']'] + rest), [Tok('x', false)] + [];
    OneMore('[', x, k, rest, false);
    k := [Tok('[', false)] + k;
    PlainThen(")(?:", ['['] + x, k, rest);
    k := PlainToks(")(?:") + k;
    OneMore(']', ")(?:" + (['['] + x), k, rest, true);
    SwallowText(rest);
    toks := [Tok(']', false)] + k;
    PlainFour();
  }

  lemma SwallowText(rest: string)
    ensures "])(?:[x]" + rest == [']'] + (")(?:" + (['['] + (['x'] + ([']'] + rest))))
  {
    Assoc("])(?:[x", [']'], rest);
    Assoc("])(?:[", ['x'], [']'] + rest);
    Assoc("])(?:", ['['], ['x'] + ([']'] + rest));
    Assoc([']'], ")(?:", ['['] + (['x'] + ([']'] + rest)));
  }

  lemma PlainFour()
    ensures PlainToks(")(?:") == [Tok(')', false), Tok('(', false), Tok('?', false), Tok(':', false)]
  {
    assert ")(?:"[1..] == "(?:" && "(?:"[1..] == "?:" && "?:"[1..] == ":" && ":"[1..] == "";
  }

  lemma NoRanges(toks: seq<Tok>)
    requires |toks| <= 7 && forall t <- toks :: t.c != '-'
    ensures Ranges(toks).Some? && forall t <- toks :: InRanges(t.c, RangesOf(toks))
    decreases |toks|
  {
    if toks != [] {
      NoRanges(toks[1..]);
      assert Ranges(toks) == Some([Range(toks[0].c, toks[0].c)] + RangesOf(toks[1..]));
      var all := RangesOf(toks);
      assert all[0] == Range(toks[0].c, toks[0].c) && forall r <- RangesOf(toks[1..]) :: r in all;
      assert forall t <- toks :: t == toks[0] || t in toks[1..];
    }
  }

  /**
   An empty class swallows the text after it, so the premise is needed: "[][x]" compiles to an
   expression that matches ")", and as a glob it matches nothing.
   */
  lemma EmptySetDiffers(ps: seq<Piece>)
    requires ps == [Set(false, []), Set(false, [Tok('x', false)])]
    ensures Pieces("[][x]") == Some(ps)
    ensures forall path :: !GlobMatches(ps, path, false)
    ensures var re := Parse("^" + PiecesText(ps, "$")); re.Some? && MatchString(re.value, ")")
  {
    EmptyPieces(ps);
    EmptyText(ps);
    var toks := SwallowingClass(")$");
    NoRanges(toks);
    assert toks[1] in toks;
    SwallowingParses("])(?:[x])$", toks);
  }

  lemma SwallowingParses(body: string, toks: seq<Tok>)
    requires ClassToks(body, true) == Regex.Read(toks, ")$") && Ranges(toks).Some? && InRanges(')', RangesOf(toks))
    requires body != "" && body[0] != '^'
    ensures var re := Parse("^" + ("(?:[" + body)); re.Some? && MatchString(re.value, ")")
  {
    var class_, tail := Class(false, RangesOf(toks)), Cat(End, Nothing);
    Cons('[', body);
    assert ParseAtom(['['] + body) == Regex.Read(class_, ")$");
    assert ParseCat(")$") == Regex.Read(Nothing, ")$");
    AtomThen(['['] + body, Some(class_), ")$");
    assert ")" + "$" == ")$";
    GroupAtom(['['] + body, Some(Cat(class_, Nothing)), "$");
    assert "(?:" + (['['] + body) == "(?:[" + body;
    assert "$"[1..] == "" && ParseCat("") == Regex.Read(Nothing, "");
    AtomThen("$", Some(End), "");
    AtomThen("(?:[" + body, Some(Cat(class_, Nothing)), "$");
    Cons('^', "(?:[" + body);
    AtomThen("^" + ("(?:[" + body), Some(Begin), "(?:[" + body);
    SwallowingMatches(class_, tail);
  }

  lemma SwallowingMatches(class_: Re, tail: Re)
    requires class_.Class? && !class_.negated && InRanges(')', class_.ranges) && tail == Cat(End, Nothing)
    ensures MatchString(Cat(Begin, Cat(Cat(class_, Nothing), tail)), ")")
  {
    NothingAfter(class_, ")", 0, 1);
    NothingAfter(End, ")", 1, 1);
    CatJoin(Cat(class_, Nothing), tail, ")", 0, 1, 1);
    CatJoin(Begin, Cat(Cat(class_, Nothing), tail), ")", 0, 0, 1);
  }

  lemma EmptyPieces(ps: seq<Piece>)
    requires ps == [Set(false, []), Set(false, [Tok('x', false)])]
    ensures Pieces("[][x]") == Some(ps)
  {
    var x := [Tok('x', false)];
    assert "[x]"[1..] == "x]" && "x]"[1..] == "]" && "]"[1..] == "" && x + [] == x && [] + x == x;
    assert SetToks("]") == Regex.Read([], "");
    assert SetToks("x]") == Regex.Read(x, "");
    assert ReadSet("x]") == Regex.Read(ps[1], "");
    assert ReadPiece("[x]") == Regex.Read(ps[1], "");
    assert Pieces("") == Some([]);
    assert Pieces("[x]") == Some([ps[1]] + []);
    assert "[][x]"[1..] == "][x]" && "][x]"[1..] == "[x]";
    var none: seq<Tok> := [];
    assert none + none == none;
    assert ReadSet("][x]") == Regex.Read(ps[0], "[x]");
    assert Pieces("[][x]") == Some([ps[0]] + ([ps[1]] + []));
    assert [ps[0]] + ([ps[1]] + []) == ps;
  }

  lemma EmptyText(ps: seq<Piece>)
    requires ps == [Set(false, []), Set(false, [Tok('x', false)])]
    ensures "^" + PiecesText(ps, "$") == "^" + ("(?:[" + "])(?:[x])$") && "])(?:[x]" + ")$" == "])(?:[x])$"
    ensures forall path :: !GlobMatches(ps, path, false)
  {
    assert ps[1..] == [ps[1]] && ps[1..][1..] == [];
    var x := ps[1].toks;
    assert x[1..] == [] && ToksText(x, "])" + "$") == "x" + ("])" + "$");
    assert PiecesText(ps[1..], "$") == "(?:[x])$";
    assert RangesOf([]) == [];
  }
}
