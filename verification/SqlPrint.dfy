/**
 Lexing undoes printing: statements written one to a line, their tokens separated by a space, quotes
 doubled and a ";" after each, are split into exactly those statements and tokens.
 */
module SqlPrint {
  import opened Wrappers
  import opened Numbers
  import opened Sequences
  import opened SqlLexer

  function Double(text: string, quote: char): string {
    if text == "" then ""
    else (if text[0] == quote then [quote, quote] else [text[0]]) + Double(text[1..], quote)
  }

  function PrintToken(t: Token): string {
    match t.kind
    case Quoted => ['"'] + (Double(t.text, '"') + ['"'])
    case Str => ['\''] + (Double(t.text, '\'') + ['\''])
    case _ => t.text
  }

  /** The tokens, and then rest after the last. */
  function PrintTokens(ts: seq<Token>, rest: string): string {
    if ts == [] then rest
    else PrintToken(ts[0]) + if |ts| == 1 then rest else [' '] + PrintTokens(ts[1..], rest)
  }

  function PrintAll(stmts: seq<Statement>): string {
    if stmts == [] then "" else PrintTokens(stmts[0], [';'] + (['\n'] + PrintAll(stmts[1..])))
  }

  // ------------------------------------------------- what can be printed so

  /** White space to the lexer, which is part of no token but quoted ones. */
  predicate IsSkipped(c: char) {
    c == ' ' || c == '\n' || c == '\t' || c == '\r' || c == '\U{000C}' || c == '\U{000B}'
  }

  /** The bytes s starts with are a rune, and not an error. */
  predicate StartsRune(s: string)
    requires s != ""
  {
    DecodeRune(s).code != RUNE_ERROR || DecodeRune(s).size > 1
  }

  /** A token the lexer takes as it is printed, outside MySQL's syntax. */
  predicate Printable(cfg: Config, t: Token) {
    match t.kind
    case Word => t.text != "" && WordStart(cfg, DecodeRune(t.text).code) && WordLength(cfg, t.text, ";") == |t.text|
    case Number => t.text != "" && IsDigit(t.text[0]) && NumberLength(t.text, ";") == |t.text|
    case Symbol =>
      && t.text != "" && DecodeRune(t.text).size == |t.text| && StartsRune(t.text)
      && !WordStart(cfg, DecodeRune(t.text).code) && !IsDigit(t.text[0])
      && !IsSkipped(t.text[0]) && t.text[0] !in "'\"`;["
    case _ => true
  }

  predicate AllPrintable(cfg: Config, ts: seq<Token>) {
    ts == [] || (Printable(cfg, ts[0]) && AllPrintable(cfg, ts[1..]))
  }

  /** A statement whose line is not read as something else than SQL, and that has no body. */
  predicate PrintableStatement(cfg: Config, stmt: Statement) {
    && stmt != [] && AllPrintable(cfg, stmt)
    && stmt[0] != Token(Symbol, "\\") && !Is(stmt[0], "DELIMITER")
    && !IsRoutine(stmt)
  }

  // ----------------------------------------------------------- single tokens

  /** What follows a printed token. */
  predicate After(tail: string) {
    tail != "" && (tail[0] == ' ' || tail[0] == ';')
  }

  lemma DoubledReads(c: char, more: string, quote: char)
    ensures var r := TakeQuoted(more, quote, false);
      if c == quote then TakeQuoted([c] + ([c] + more), quote, false) == Taken([c] + r.text, 2 + r.n)
      else TakeQuoted([c] + more, quote, false) == Taken([c] + r.text, 1 + r.n)
  {
    Cons(c, [c] + more);
    Cons(c, more);
    assert ([c] + ([c] + more))[2..] == more && ([c] + ([c] + more))[1] == c;
  }

  lemma QuoteEnds(quote: char, tail: string)
    requires After(tail) && quote != ' ' && quote != ';'
    ensures TakeQuoted([quote] + tail, quote, false) == Taken("", 1)
  {
    assert ([quote] + tail)[1] == tail[0];
  }

  lemma {:induction false} QuotedReads(text: string, quote: char, tail: string)
    requires After(tail) && quote != ' ' && quote != ';'
    ensures TakeQuoted(Double(text, quote) + ([quote] + tail), quote, false) == Taken(text, |Double(text, quote)| + 1)
  {
    var end := [quote] + tail;
    if text == "" {
      QuoteEnds(quote, tail);
      assert "" + end == end;
    } else {
      var c, more := text[0], Double(text[1..], quote) + end;
      QuotedReads(text[1..], quote, tail);
      assert text == [c] + text[1..];
      DoubledReads(c, more, quote);
      assert Double(text, quote) + end == if c == quote then [c] + ([c] + more) else [c] + more;
    }
  }

  /** A valid rune is read the same whatever follows it. */
  lemma RuneStays(s: string, tail: string)
    requires s != "" && StartsRune(s)
    ensures DecodeRune(s + tail) == DecodeRune(s)
  {
    var t := s + tail;
    assert forall k | 0 <= k < |s| :: t[k] == s[k];
  }

  /** The error itself is a rune of three bytes. */
  lemma ErrorIsRune(s: string)
    requires s != "" && DecodeRune(s).code == RUNE_ERROR && DecodeRune(s).size > 1
    ensures s[..DecodeRune(s).size] == "\U{00EF}\U{00BF}\U{00BD}"
  {
    var r := s[..DecodeRune(s).size];
    assert r == [s[0], s[1], s[2]];
  }

  lemma LeftOf(s: string, n: nat, tail: string)
    requires n <= |s|
    ensures (s + tail)[n..] == s[n..] + tail
  {}

  lemma {:induction false} WordStays(cfg: Config, s: string, tail: string)
    requires WordLength(cfg, s, ";") == |s| && After(tail)
    ensures WordLength(cfg, s + tail, ";") == |s|
    decreases |s|
  {
    if s == "" {
      assert s + tail == tail;
      assert DecodeRune(tail).code == tail[0] as int;
    } else {
      var n := DecodeRune(s).size;
      RuneStays(s, tail);
      WordStays(cfg, s[n..], tail);
      LeftOf(s, n, tail);
    }
  }

  lemma {:induction false} NumberStays(s: string, tail: string)
    requires NumberLength(s, ";") == |s| && After(tail)
    ensures NumberLength(s + tail, ";") == |s|
  {
    if s == "" {
      assert s + tail == tail;
    } else {
      NumberStays(s[1..], tail);
      assert (s + tail)[1..] == s[1..] + tail;
    }
  }

  /** What a printed token starts with. */
  predicate StartOf(cfg: Config, t: Token, c: char) {
    && !IsSkipped(c) && c != ';' && c != '[' && (t.kind != Symbol ==> c > ' ')
    && (match t.kind
        case Quoted => c == '"'
        case Str => c == '\''
        case Number => IsDigit(c)
        case Word => t.text != "" && c == t.text[0] && !IsDigit(c)
        case Symbol => t.text != "" && c == t.text[0] && !IsDigit(c) && Upper(c) != 'D' && Upper(c) != 'G')
    && (c == '\\' || c == '-' || c == '/' || c == '*' || c == '$' ==> t == Token(Symbol, [c]))
  }

  lemma TokenStarts(cfg: Config, t: Token, tail: string)
    requires Printable(cfg, t)
    ensures PrintToken(t) != "" && StartOf(cfg, t, PrintToken(t)[0])
    ensures (PrintToken(t) + tail)[0] == PrintToken(t)[0]
  {
    if t.kind == Symbol && t.text[0] < '\U{0080}' {
      assert t.text == [t.text[0]];
    }
  }

  /** The state after a token that ends n bytes on. */
  function Took(st: State, t: Token, n: nat): State
    requires 0 < n <= |st.rest|
  {
    Add(Advance(st, n), t.kind, t.text)
  }

  lemma TokenTaken(cfg: Config, st: State, t: Token, tail: string)
    requires !cfg.mysql && Printable(cfg, t) && After(tail) && st.delimiter == ";"
    requires st.rest == PrintToken(t) + tail
    ensures PrintToken(t) != "" && TakeToken(cfg, st) == Took(st, t, |PrintToken(t)|)
  {
    TokenStarts(cfg, t, tail);
    match t.kind
    case Quoted => QuotedTaken(cfg, st, t, tail);
    case Str => QuotedTaken(cfg, st, t, tail);
    case Number =>
      NumberStays(t.text, tail);
      assert st.rest[..|t.text|] == t.text;
    case Word => WordTaken(cfg, st, t, tail);
    case Symbol => SymbolTaken(cfg, st, t, tail);
  }

  lemma QuotedTaken(cfg: Config, st: State, t: Token, tail: string)
    requires !cfg.mysql && (t.kind == Quoted || t.kind == Str) && After(tail) && st.delimiter == ";"
    requires st.rest == PrintToken(t) + tail
    ensures TakeToken(cfg, st) == Took(st, t, |PrintToken(t)|)
  {
    var quote := if t.kind == Quoted then '"' else '\'';
    var body := Double(t.text, quote) + ([quote] + tail);
    assert st.rest == [quote] + body;
    Cons(quote, body);
    QuotedReads(t.text, quote, tail);
  }

  lemma WordTaken(cfg: Config, st: State, t: Token, tail: string)
    requires !cfg.mysql && Printable(cfg, t) && t.kind == Word && After(tail) && st.delimiter == ";"
    requires st.rest == t.text + tail
    ensures TakeToken(cfg, st) == Took(st, t, |t.text|)
  {
    var n := |t.text|;
    RuneStays(t.text, tail);
    WordStays(cfg, t.text, tail);
    TokenStarts(cfg, t, tail);
    assert st.rest[..n] == t.text && st.rest[n..] == tail;
  }

  lemma SymbolTaken(cfg: Config, st: State, t: Token, tail: string)
    requires !cfg.mysql && Printable(cfg, t) && t.kind == Symbol && After(tail) && st.delimiter == ";"
    requires st.rest == t.text + tail
    ensures TakeToken(cfg, st) == Took(st, t, |t.text|)
  {
    var s := st.rest;
    SymbolReads(cfg, t, s, tail);
    if s[0] == '$' {
      LoneDollar(s, tail);
    }
    BareTaken(cfg, st);
    BareSymbol(cfg, st);
  }

  lemma BareTaken(cfg: Config, st: State)
    requires !cfg.mysql && st.rest != "" && st.delimiter == ";" && st.rest[0] !in "'\"`;["
    requires st.rest[0] == '$' ==> DollarTag(st.rest) == ""
    ensures TakeToken(cfg, st) == TakeBare(cfg, st)
  {}

  lemma BareSymbol(cfg: Config, st: State)
    requires st.rest != "" && st.delimiter == ";" && !IsDigit(st.rest[0]) && !WordStart(cfg, DecodeRune(st.rest).code)
    ensures TakeBare(cfg, st) == Add(Advance(st, DecodeRune(st.rest).size), Symbol, Encoded(st.rest))
  {}

  lemma SymbolReads(cfg: Config, t: Token, s: string, tail: string)
    requires Printable(cfg, t) && t.kind == Symbol && s == t.text + tail
    ensures DecodeRune(s).size == |t.text| && !WordStart(cfg, DecodeRune(s).code) && Encoded(s) == t.text
    ensures s[0] == t.text[0] && (s[0] == '$' ==> t.text == "$")
  {
    RuneStays(t.text, tail);
    assert s[..|t.text|] == t.text;
    if DecodeRune(s).code == RUNE_ERROR { ErrorIsRune(s); }
  }

  lemma LoneDollar(s: string, tail: string)
    requires After(tail) && s == "$" + tail
    ensures DollarTag(s) == ""
  {
    assert s[1..] == tail;
  }

  // --------------------------------------------------------------- one line

  /** Nothing of a routine is open, no delimiter set, and a line has not yet been told from SQL. */
  predicate InLine(st: State) {
    !st.lineStart && st.delimiter == ";" && st.versioned == 0
  }

  /** A control character as a symbol, that leaves its line to begin. */
  predicate Control(t: Token) {
    t.kind == Symbol && t.text != "" && t.text[0] <= ' '
  }

  /** How many control characters tokens start with. */
  function Controls(ts: seq<Token>): (k: nat)
    ensures k <= |ts|
  {
    if ts == [] || !Control(ts[0]) then 0 else 1 + Controls(ts[1..])
  }

  /** The tokens on from control characters, with rest after them, start no other statement. */
  predicate StartsNone(ts: seq<Token>, rest: string) {
    Controls(ts) == |ts| || !StartsStatement(PrintTokens(ts[Controls(ts)..], rest))
  }

  /** The statement read so far is not ended before these tokens. */
  predicate Uncut(st: State, ts: seq<Token>, rest: string) {
    !st.lineFirst || StartsNone(ts, rest) || (st.stmt == [] && Controls(ts) == 0)
  }

  /** The state after the start of a line that begins no statement. */
  function Begun(st: State, t: Token): State {
    st.(lineFirst := st.lineFirst && Control(t))
  }

  lemma ControlStart(cfg: Config, t: Token, tail: string)
    requires Printable(cfg, t)
    ensures var s := PrintToken(t) + tail; s != "" && !IsSkipped(s[0]) && s[0] != ';' && (s[0] <= ' ' <==> Control(t))
  {
    TokenStarts(cfg, t, tail);
  }

  lemma TokenStep(cfg: Config, st: State, t: Token, tail: string)
    requires !cfg.mysql && Printable(cfg, t) && After(tail) && InLine(st)
    requires st.rest == PrintToken(t) + tail
    requires !st.lineFirst || Control(t) || st.stmt == [] || !StartsStatement(st.rest)
    ensures PrintToken(t) != ""
    ensures Step(cfg, st) == Took(Begun(st, t), t, |PrintToken(t)|)
  {
    var first := Begun(st, t);
    NoMarks(cfg, t, tail, st.rest);
    ControlStart(cfg, t, tail);
    TokenTaken(cfg, first, t, tail);
    PlainStep(cfg, st, first);
  }

  lemma NoMarks(cfg: Config, t: Token, tail: string, s: string)
    requires Printable(cfg, t) && After(tail) && s == PrintToken(t) + tail
    ensures !("--" <= s) && !("/*" <= s)
  {
    TokenStarts(cfg, t, tail);
    DashOrSlash(t, tail, s);
  }

  lemma PlainStep(cfg: Config, st: State, first: State)
    requires !cfg.mysql && st.rest != "" && !IsSkipped(st.rest[0]) && st.rest[0] != ';'
    requires !("--" <= st.rest) && !("/*" <= st.rest) && InLine(st)
    requires !st.lineFirst || st.rest[0] <= ' ' || st.stmt == [] || !StartsStatement(st.rest)
    requires first == st.(lineFirst := st.lineFirst && st.rest[0] <= ' ')
    ensures Step(cfg, st) == TakeToken(cfg, first)
  {
    assert st.(lineStart := false) == st;
    assert StartLine(st) == first;
    PlainTurn(cfg, first);
  }

  lemma PlainTurn(cfg: Config, st: State)
    requires !cfg.mysql && st.delimiter == ";" && st.versioned == 0
    requires st.rest != "" && !IsSkipped(st.rest[0]) && st.rest[0] != ';'
    requires !("--" <= st.rest) && !("/*" <= st.rest)
    ensures Turn(cfg, st) == TakeToken(cfg, st)
  {}

  /** A printed "-" or "/" is followed by no second character of a comment. */
  lemma DashOrSlash(t: Token, tail: string, s: string)
    requires After(tail) && s == PrintToken(t) + tail && s != ""
    requires s[0] == '-' || s[0] == '/' || s[0] == '*' ==> t == Token(Symbol, [s[0]])
    ensures !("--" <= s) && !("/*" <= s) && !("*/" <= s) && !("/*!" <= s)
  {
    if s[0] == '-' || s[0] == '/' || s[0] == '*' {
      assert s == [s[0]] + tail && s[1] == tail[0];
    }
  }

  lemma SpaceStep(cfg: Config, st: State, tail: string)
    requires InLine(st) && st.rest == [' '] + tail
    ensures Step(cfg, st) == Advance(st, 1)
    ensures Advance(st, 1).rest == tail
  {
    Cons(' ', tail);
  }

  function LastByte(ts: seq<Token>): string
    requires ts != []
  {
    var s := PrintToken(ts[|ts| - 1]);
    s[if |s| == 0 then 0 else |s| - 1..]
  }

  /** The state after the tokens, with tail left. */
  function Past(st: State, ts: seq<Token>, tail: string): State
    requires ts != []
  {
    st.(rest := tail, stmt := st.stmt + ts, lineFirst := st.lineFirst && Controls(ts) == |ts|, prev := LastByte(ts))
  }

  /** The tokens of a line are read one after the other. */
  lemma {:induction false} TokensRun(cfg: Config, st: State, ts: seq<Token>, tail: string)
    requires !cfg.mysql && ts != [] && AllPrintable(cfg, ts) && After(tail)
    requires InLine(st) && Uncut(st, ts, tail) && st.rest == PrintTokens(ts, tail)
    ensures Run(cfg, st) == Run(cfg, Past(st, ts, tail))
    decreases |ts|
  {
    UncutFirst(st, ts, tail);
    if |ts| == 1 {
      assert ts == [ts[0]] && ts[1..] == [];
      TokenRun(cfg, st, ts[0], tail, Past(st, ts, tail));
    } else {
      var left := PrintTokens(ts[1..], tail);
      var next := Past(st, [ts[0]], left).(prev := " ");
      FirstRun(cfg, st, ts[0], left, next);
      UncutRest(st, ts, left, tail);
      TokensRun(cfg, next, ts[1..], tail);
      PastPast(st, ts, left, tail);
    }
  }

  lemma UncutFirst(st: State, ts: seq<Token>, tail: string)
    requires ts != [] && Uncut(st, ts, tail) && st.rest == PrintTokens(ts, tail)
    ensures !st.lineFirst || Control(ts[0]) || st.stmt == [] || !StartsStatement(st.rest)
  {
    assert ts[0..] == ts;
  }

  lemma OneControl(t: Token)
    ensures Controls([t]) == if Control(t) then 1 else 0
  {
    assert [t][1..] == [];
  }

  lemma UncutRest(st: State, ts: seq<Token>, left: string, tail: string)
    requires |ts| > 1 && Uncut(st, ts, tail)
    ensures Uncut(Past(st, [ts[0]], left).(prev := " "), ts[1..], tail)
  {
    OneControl(ts[0]);
    if Control(ts[0]) {
      assert ts[Controls(ts)..] == ts[1..][Controls(ts[1..])..];
    }
  }

  lemma PastPast(st: State, ts: seq<Token>, left: string, tail: string)
    requires |ts| > 1
    ensures Past(Past(st, [ts[0]], left).(prev := " "), ts[1..], tail) == Past(st, ts, tail)
  {
    OneControl(ts[0]);
    Uncons(ts);
    Assoc(st.stmt, [ts[0]], ts[1..]);
  }

  lemma FirstRun(cfg: Config, st: State, t: Token, left: string, next: State)
    requires !cfg.mysql && Printable(cfg, t) && InLine(st)
    requires !st.lineFirst || Control(t) || st.stmt == [] || !StartsStatement(st.rest)
    requires st.rest == PrintToken(t) + ([' '] + left) && next == Past(st, [t], left).(prev := " ")
    ensures Run(cfg, st) == Run(cfg, next)
  {
    var mid := Past(st, [t], [' '] + left);
    TokenRun(cfg, st, t, [' '] + left, mid);
    SpaceRun(cfg, mid, next);
  }

  lemma TokenRun(cfg: Config, st: State, t: Token, tail: string, next: State)
    requires !cfg.mysql && Printable(cfg, t) && After(tail) && InLine(st)
    requires !st.lineFirst || Control(t) || st.stmt == [] || !StartsStatement(st.rest)
    requires st.rest == PrintToken(t) + tail && next == Past(st, [t], tail)
    ensures Run(cfg, st) == Run(cfg, next)
  {
    OneControl(t);
    TokenStep(cfg, st, t, tail);
    var n := |PrintToken(t)|;
    assert st.rest[n..] == tail && st.rest[n - 1..n] == PrintToken(t)[n - 1..];
    assert Took(Begun(st, t), t, n) == next;
    RunStep(cfg, st, next);
  }

  lemma RunStep(cfg: Config, st: State, next: State)
    requires st.rest != "" && st.delimiter != "" && Step(cfg, st) == next
    ensures Run(cfg, st) == Run(cfg, next)
  {}

  lemma SpaceRun(cfg: Config, st: State, next: State)
    requires InLine(st) && st.rest == [' '] + next.rest && next == st.(rest := next.rest, prev := " ")
    ensures Run(cfg, st) == Run(cfg, next)
  {
    SpaceStep(cfg, st, next.rest);
    assert st.rest[0..1] == " ";
    RunStep(cfg, st, next);
  }

  // -------------------------------------------------------- what begins a line

  lemma {:induction false} LineOf(p: string, rest: string)
    requires '\n' !in p
    ensures LineLength(p + rest) == |p| + LineLength(rest)
  {
    if p == "" {
      assert p + rest == rest;
    } else {
      assert (p + rest)[1..] == p[1..] + rest;
      assert p[0] in p && forall c <- p[1..] :: c in p;
      LineOf(p[1..], rest);
    }
  }

  /** The first line of a text. */
  function FirstLine(s: string): string {
    s[..LineLength(s)]
  }

  lemma FirstLineOf(p: string, rest: string)
    requires '\n' !in p
    ensures FirstLine(p + rest) == p + FirstLine(rest)
  {
    LineOf(p, rest);
  }

  lemma {:induction false} NumberOneLine(s: string)
    requires NumberLength(s, ";") == |s|
    ensures '\n' !in s
  {
    if s != "" {
      NumberOneLine(s[1..]);
      assert s == [s[0]] + s[1..];
    }
  }

  lemma {:induction false} WordOneLine(cfg: Config, s: string)
    requires WordLength(cfg, s, ";") == |s|
    ensures forall c <- s :: c != '\n' && !IsBlank(c) && c != '-' && c != '\r' && c != ';'
    decreases |s|
  {
    if s != "" {
      var r := DecodeRune(s);
      WordOneLine(cfg, s[r.size..]);
      assert s == s[..r.size] + s[r.size..];
      RuneBytes(s);
    }
  }

  /** A rune's bytes are its code, or all beyond ASCII. */
  lemma RuneBytes(s: string)
    requires s != "" && DecodeRune(s).code != RUNE_ERROR
    ensures var r := DecodeRune(s);
            if s[0] < '\U{0080}' then r == Rune(s[0] as int, 1)
            else r.code >= 0x80 && forall k | 0 <= k < r.size :: s[k] >= '\U{0080}'
  {}

  // The first line of a printed statement is no line of another kind.

  /** A line that starts with a character no pattern of a line starts with. */
  lemma PlainLine(line: string)
    requires line != "" && !IsBlank(line[0]) && line[0] != '/' && line[0] != '\\'
    requires Upper(line[0]) != 'D' && Upper(line[0]) != 'G'
    ensures DelimiterLine(line) == None && !GoLine(line) && !SlashLine(line)
    ensures SkipBlanks(line) == line
  {}

  /** What can follow a token on its line: a ";", or a space and something else than a line's end. */
  predicate Follows(more: string) {
    && After(more)
    && (more[0] == ' ' ==> |more| > 1 && !IsSkipped(more[1]) && !("--" <= more[1..]))
  }

  lemma FollowsBlanks(more: string)
    requires Follows(more)
    ensures SkipBlanks(more) == if more[0] == ' ' then more[1..] else more
    ensures !AtLineEnd(SkipBlanks(more)) && !("--" <= SkipBlanks(more))
  {
    if more[0] == ' ' {
      var s := more[1..];
      assert s[0] == more[1];
      assert Skip(s, Blanks) == s;
      assert Skip(more, Blanks) == Skip(s, Blanks);
    }
  }

  lemma NotSlash(line: string, more: string)
    requires line == "/" + more && Follows(more)
    ensures !SlashLine(line)
  {
    assert SkipBlanks(line) == line && line[1..] == more;
    FollowsBlanks(more);
  }

  lemma SlashFirst(line: string, more: string)
    requires line == "/" + more && Follows(more)
    ensures DelimiterLine(line) == None && !GoLine(line) && !SlashLine(line) && SkipBlanks(line) == line
  {
    NotSlash(line, more);
    assert line[0] == '/' && Upper('/') == '/';
    NoWords(line);
  }

  lemma NoWords(line: string)
    requires line != "" && !IsBlank(line[0]) && Upper(line[0]) != 'D' && Upper(line[0]) != 'G'
    ensures DelimiterLine(line) == None && !GoLine(line) && SkipBlanks(line) == line
  {}

  /** No line ends, and no comment starts, after the blanks of s. */
  predicate GoesOn(s: string) {
    !AtLineEnd(SkipBlanks(s)) && !("--" <= SkipBlanks(s))
  }

  lemma {:induction false} CountGoesOn(d: string, more: string)
    requires NumberLength(d, ";") == |d| && Follows(more)
    ensures GoesOn(SkipDigits(d + more))
  {
    if d == "" {
      assert d + more == more;
      FollowsBlanks(more);
    } else if IsDigit(d[0]) {
      assert (d + more)[1..] == d[1..] + more;
      CountGoesOn(d[1..], more);
    } else {
      assert (d + more)[0] == d[0];
    }
  }

  /** After "GO": a count is followed by something that goes on. */
  lemma AfterGo(cfg: Config, ts: seq<Token>, rest: string, more: string)
    requires AllPrintable(cfg, ts) && rest != "" && rest[0] == ';'
    requires more == FirstLine(if ts == [] then rest else [' '] + PrintTokens(ts, rest))
    requires Follows(more) && (ts != [] ==> Follows(FirstLine(LineAfter(ts, rest))))
    ensures GoesOn(AfterCount(more))
  {
    FollowsBlanks(more);
    if ts != [] {
      FirstLineOf(" ", PrintTokens(ts, rest));
      if ts[0].kind == Number {
        NumberOneLine(ts[0].text);
        FirstLineOf(ts[0].text, LineAfter(ts, rest));
        AfterNumber(ts[0].text, FirstLine(LineAfter(ts, rest)), more);
      } else {
        TokenStarts(cfg, ts[0], LineAfter(ts, rest));
        NoCount(PrintTokens(ts, rest), more);
      }
    }
  }

  lemma AfterNumber(d: string, left: string, more: string)
    requires d != "" && IsDigit(d[0]) && NumberLength(d, ";") == |d| && Follows(left) && more == " " + (d + left)
    ensures GoesOn(AfterCount(more))
  {
    assert more[1..] == d + left && (d + left)[0] == d[0];
    assert SkipBlanks(more) == SkipBlanks(d + left) == d + left;
    CountGoesOn(d, left);
  }

  lemma NoCount(text: string, more: string)
    requires text != "" && text[0] != '\n' && !IsBlank(text[0]) && !IsDigit(text[0]) && more == " " + FirstLine(text)
    ensures AfterCount(more) == more
  {
    assert FirstLine(text) != "" && FirstLine(text)[0] == text[0];
    assert more[1..] == FirstLine(text);
    assert SkipBlanks(more) == SkipBlanks(more[1..]) == more[1..];
  }

  /** What is printed after the first token. */
  function LineAfter(ts: seq<Token>, rest: string): string
    requires ts != []
  {
    if |ts| == 1 then rest else [' '] + PrintTokens(ts[1..], rest)
  }

  lemma TokensFollow(cfg: Config, ts: seq<Token>, rest: string)
    requires ts != [] && AllPrintable(cfg, ts) && rest != "" && rest[0] == ';'
    ensures Follows(FirstLine(LineAfter(ts, rest)))
  {
    if |ts| == 1 {
      assert FirstLine(rest)[0] == ';';
    } else {
      var left := PrintTokens(ts[1..], rest);
      assert AllPrintable(cfg, ts[1..]);
      TokenStarts(cfg, ts[1], LineAfter(ts[1..], rest));
      assert left == PrintToken(ts[1]) + LineAfter(ts[1..], rest);
      DashOrSlash(ts[1], LineAfter(ts[1..], rest), left);
      FirstLineOf(" ", left);
      assert [' '] + left == " " + left;
      var line := FirstLine([' '] + left);
      assert line == " " + FirstLine(left) && line[1..] == FirstLine(left);
    }
  }

  lemma WordGoes(cfg: Config, w: string, more: string)
    requires WordLength(cfg, w, ";") == |w| && |w| > 2 && After(more)
    ensures GoesOn(AfterCount((w + more)[2..]))
  {
    WordOneLine(cfg, w);
    var s := (w + more)[2..];
    assert s[0] == w[2] && w[2] in w;
    assert SkipBlanks(s) == s;
  }

  lemma WordNoDelimiter(cfg: Config, w: string, more: string)
    requires w != "" && WordLength(cfg, w, ";") == |w| && !FoldEqual(w, "DELIMITER") && After(more)
    ensures DelimiterLine(w + more) == None
  {
    WordOneLine(cfg, w);
    var line := w + more;
    assert line[0] == w[0] && w[0] in w;
    assert SkipBlanks(line) == line;
    assert |w| < 9 ==> line[|w|] == more[0] && Upper(more[0]) == more[0];
    assert |w| == 9 ==> forall k | 0 <= k < 9 :: line[k] == w[k];
    if |w| > 9 {
      var s := line[9..];
      assert s[0] == w[9] && w[9] in w;
      assert SkipBlanks(s) == s;
    }
  }

  lemma WordNoGo(cfg: Config, ts: seq<Token>, rest: string, line: string)
    requires ts != [] && AllPrintable(cfg, ts) && ts[0].kind == Word && rest != "" && rest[0] == ';'
    requires line == ts[0].text + FirstLine(LineAfter(ts, rest)) && !IsBlank(line[0])
    ensures !GoLine(line)
  {
    var w, more := ts[0].text, FirstLine(LineAfter(ts, rest));
    TokensFollow(cfg, ts, rest);
    assert SkipBlanks(line) == line;
    if |w| == 1 {
      assert line[1] == more[0];
    } else if |w| == 2 {
      assert line[2..] == more;
      assert AllPrintable(cfg, ts[1..]);
      if |ts| > 1 {
        TokensFollow(cfg, ts[1..], rest);
      }
      AfterGo(cfg, ts[1..], rest, more);
    } else {
      WordGoes(cfg, w, more);
    }
  }

  /** A printed statement starts no line of another kind. */
  lemma LineIsSql(cfg: Config, stmt: Statement, rest: string, line: string)
    requires PrintableStatement(cfg, stmt) && rest != "" && rest[0] == ';'
    requires line == FirstLine(PrintTokens(stmt, rest))
    ensures DelimiterLine(line) == None && !GoLine(line) && !SlashLine(line)
    ensures SkipBlanks(line) != "" && SkipBlanks(line)[0] != '\\'
  {
    var t, left := stmt[0], LineAfter(stmt, rest);
    assert PrintTokens(stmt, rest) == PrintToken(t) + left;
    TokenStarts(cfg, t, left);
    TokensFollow(cfg, stmt, rest);
    var more := FirstLine(left);
    var c := PrintToken(t)[0];
    assert line != "" && line[0] == c;
    if t.kind == Word {
      WordOneLine(cfg, t.text);
      FirstLineOf(t.text, left);
      WordNoDelimiter(cfg, t.text, more);
      WordNoGo(cfg, stmt, rest, line);
      assert SkipBlanks(line) == line;
    } else if c == '/' {
      assert t.text == "/";
      FirstLineOf("/", left);
      SlashFirst(line, more);
    } else {
      PlainLine(line);
    }
  }

  // ------------------------------------------------------------- whole texts

  predicate AllPrintableStatements(cfg: Config, stmts: seq<Statement>) {
    stmts == [] || (PrintableStatement(cfg, stmts[0]) && AllPrintableStatements(cfg, stmts[1..]))
  }

  /** The cursor is at the start of a line, between statements. */
  predicate AtLine(st: State) {
    st.lineStart && st.lineFirst && st.delimiter == ";" && st.versioned == 0 && st.stmt == []
  }

  /** The statement's text, on from the control characters it starts with, starts no other. */
  predicate Whole(stmt: Statement, rest: string) {
    Controls(stmt) == 0 || StartsNone(stmt, rest)
  }

  /** So do all the statements of a text. */
  predicate AllWhole(stmts: seq<Statement>) {
    stmts == [] || (Whole(stmts[0], EndOf(stmts[1..])) && AllWhole(stmts[1..]))
  }

  /** What is printed after a statement: its ";", and the others. */
  function EndOf(left: seq<Statement>): string {
    [';'] + (['\n'] + PrintAll(left))
  }

  lemma LineStarts(cfg: Config, st: State, stmt: Statement, rest: string)
    requires !cfg.mysql && PrintableStatement(cfg, stmt) && AtLine(st) && rest != "" && rest[0] == ';'
    requires st.rest == PrintTokens(stmt, rest)
    ensures Run(cfg, st) == Run(cfg, st.(lineStart := false))
  {
    var first := st.(lineStart := false);
    LineIsSql(cfg, stmt, rest, FirstLine(st.rest));
    assert TakeLine(st) == None;
    TokenStarts(cfg, stmt[0], LineAfter(stmt, rest));
    assert st.rest == PrintToken(stmt[0]) + LineAfter(stmt, rest);
    SameStep(cfg, st, first);
  }

  lemma SameStep(cfg: Config, st: State, first: State)
    requires st.rest != "" && st.delimiter != "" && TakeLine(st) == None && first == st.(lineStart := false)
    ensures Run(cfg, st) == Run(cfg, first)
  {
    assert Step(cfg, st) == Turn(cfg, StartLine(first)) == Step(cfg, first);
    RunStep(cfg, st, Step(cfg, st));
    RunStep(cfg, first, Step(cfg, first));
  }

  lemma LineRuns(cfg: Config, st: State, stmt: Statement, rest: string)
    requires !cfg.mysql && PrintableStatement(cfg, stmt) && AtLine(st) && rest != "" && rest[0] == ';'
    requires Whole(stmt, rest) && st.rest == PrintTokens(stmt, rest)
    ensures Run(cfg, st) == Run(cfg, Past(st.(lineStart := false), stmt, rest))
  {
    LineStarts(cfg, st, stmt, rest);
    TokensRun(cfg, st.(lineStart := false), stmt, rest);
  }

  lemma SemicolonStartsNone(s: string)
    requires s != "" && s[0] == ';'
    ensures !StartsStatement(s)
  {
    assert Upper(';') == ';';
  }

  lemma EndRuns(cfg: Config, st: State, next: State)
    requires InLine(st) && !IsRoutine(st.stmt) && st.stmt != []
    requires st.rest == [';'] + (['\n'] + next.rest)
    requires next == st.(rest := next.rest, prev := "\n", lineStart := true, lineFirst := true,
                         out := st.out + [st.stmt], stmt := [])
    ensures Run(cfg, st) == Run(cfg, next)
  {
    var line := ['\n'] + next.rest;
    Cons(';', line);
    Cons('\n', next.rest);
    SemicolonStartsNone(st.rest);
    var begun := st.(lineFirst := false);
    var ended := begun.(rest := line, prev := ";", out := st.out + [st.stmt], stmt := []);
    assert ([';'] + line)[0..1] == ";" && line[0..1] == "\n";
    assert StartLine(st) == begun && Turn(cfg, begun) == ended;
    RunStep(cfg, st, ended);
    RunStep(cfg, ended, next);
  }

  /** Whatever was split before, splitting what is printed adds exactly the statements printed. */
  lemma {:induction false} AllRun(cfg: Config, st: State, stmts: seq<Statement>)
    requires !cfg.mysql && AllPrintableStatements(cfg, stmts) && AllWhole(stmts)
    requires AtLine(st) && st.rest == PrintAll(stmts)
    ensures Run(cfg, st) == st.out + stmts
    decreases |stmts|
  {
    if stmts == [] {
      assert st.out + [] == st.out;
    } else {
      var next := Printed(st, stmts[0], stmts[1..]);
      StatementRuns(cfg, st, stmts[0], next);
      AllRun(cfg, next, stmts[1..]);
      OneMore(st.out, stmts);
    }
  }

  lemma OneMore(out: seq<Statement>, stmts: seq<Statement>)
    requires stmts != []
    ensures (out + [stmts[0]]) + stmts[1..] == out + stmts
  {
  }

  /** The state after a printed statement, with those after it left. */
  function Printed(st: State, stmt: Statement, left: seq<Statement>): State {
    st.(rest := PrintAll(left), prev := "\n", out := st.out + [stmt])
  }

  lemma StatementRuns(cfg: Config, st: State, stmt: Statement, next: State)
    requires !cfg.mysql && PrintableStatement(cfg, stmt) && AtLine(st)
    requires var rest := [';'] + (['\n'] + next.rest); Whole(stmt, rest) && st.rest == PrintTokens(stmt, rest)
    requires next == st.(rest := next.rest, prev := "\n", out := st.out + [stmt])
    ensures Run(cfg, st) == Run(cfg, next)
  {
    var rest := [';'] + (['\n'] + next.rest);
    LineRuns(cfg, st, stmt, rest);
    assert [] + stmt == stmt;
    EndRuns(cfg, Past(st.(lineStart := false), stmt, rest), next);
  }

  // ------------------------------------------------------ what is cut in two

  /** What has been split stays. */
  lemma {:induction false} RunKeeps(cfg: Config, st: State)
    requires st.delimiter != ""
    ensures st.out <= Run(cfg, st)
    decreases |st.rest|
  {
    if st.rest != "" {
      RunKeeps(cfg, Step(cfg, st));
    }
  }

  /** The control characters are a statement of their own when the text after them starts another. */
  lemma CutRuns(cfg: Config, st: State, stmt: Statement, k: nat, rest: string)
    requires !cfg.mysql && PrintableStatement(cfg, stmt) && AtLine(st) && rest != "" && rest[0] == ';'
    requires 0 < k < |stmt| && k == Controls(stmt) && st.rest == PrintTokens(stmt, rest)
    requires StartsStatement(PrintTokens(stmt[k..], rest))
    ensures st.out + [stmt[..k]] <= Run(cfg, st)
  {
    LineStarts(cfg, st, stmt, rest);
    FirstCut(cfg, st.(lineStart := false), stmt, k, rest);
  }

  lemma FirstCut(cfg: Config, st: State, stmt: Statement, k: nat, rest: string)
    requires !cfg.mysql && AllPrintable(cfg, stmt) && 0 < k < |stmt| && k == Controls(stmt)
    requires rest != "" && rest[0] == ';'
    requires InLine(st) && st.lineFirst && st.stmt == [] && st.rest == PrintTokens(stmt, rest)
    requires StartsStatement(PrintTokens(stmt[k..], rest))
    ensures st.out + [stmt[..k]] <= Run(cfg, st)
  {
    var next := Headed(st, stmt[..k], PrintTokens(stmt[k..], rest));
    HeadRuns(cfg, st, stmt, rest, next);
    HeadCut(cfg, next, stmt, k, rest);
  }

  lemma NotWhole(stmt: Statement, rest: string)
    requires !Whole(stmt, rest)
    ensures 0 < Controls(stmt) < |stmt| && StartsStatement(PrintTokens(stmt[Controls(stmt)..], rest))
  {
  }

  lemma HeadCut(cfg: Config, st: State, stmt: Statement, k: nat, rest: string)
    requires !cfg.mysql && AllPrintable(cfg, stmt) && 0 < k < |stmt| && k == Controls(stmt)
    requires rest != "" && rest[0] == ';'
    requires InLine(st) && st.lineFirst && st.stmt == stmt[..k]
    requires st.rest == PrintTokens(stmt[k..], rest) && StartsStatement(st.rest)
    ensures st.out + [stmt[..k]] <= Run(cfg, st)
  {
    ControlsOf(stmt);
    AllPrintableSplit(cfg, stmt, k);
    NoRoutine(stmt[..k]);
    CutStep(cfg, st, stmt[k], LineAfter(stmt[k..], rest));
    RunPast(cfg, st, st.out + [stmt[..k]]);
  }

  lemma NoRoutine(head: Statement)
    requires head != [] && Controls(head) == |head|
    ensures !IsRoutine(head)
  {
  }

  lemma RunPast(cfg: Config, st: State, out: seq<Statement>)
    requires st.rest != "" && st.delimiter != "" && out <= Step(cfg, st).out
    ensures out <= Run(cfg, st)
  {
    RunKeeps(cfg, Step(cfg, st));
    RunStep(cfg, st, Step(cfg, st));
  }

  /** The state after control characters that start a line, with left after them. */
  function Headed(st: State, head: seq<Token>, left: string): State {
    st.(rest := left, prev := " ", lineStart := false, stmt := head)
  }

  lemma HeadRuns(cfg: Config, st: State, stmt: Statement, rest: string, next: State)
    requires !cfg.mysql && AllPrintable(cfg, stmt) && InLine(st) && st.lineFirst && st.stmt == []
    requires 0 < Controls(stmt) < |stmt| && st.rest == PrintTokens(stmt, rest)
    requires next == Headed(st, stmt[..Controls(stmt)], PrintTokens(stmt[Controls(stmt)..], rest))
    ensures Run(cfg, st) == Run(cfg, next)
  {
    var k := Controls(stmt);
    var head := stmt[..k];
    PrintSplit(stmt, k, rest);
    ControlsOf(stmt);
    AllPrintableSplit(cfg, stmt, k);
    TokensRun(cfg, st, head, [' '] + next.rest);
    assert [] + head == head;
    SpaceRun(cfg, Past(st, head, [' '] + next.rest), next);
  }

  lemma CutStep(cfg: Config, st: State, t: Token, tail: string)
    requires !cfg.mysql && Printable(cfg, t) && !Control(t) && InLine(st) && st.lineFirst
    requires st.rest == PrintToken(t) + tail && After(tail) && StartsStatement(st.rest)
    requires st.stmt != [] && !IsRoutine(st.stmt)
    ensures st.rest != "" && st.out + [st.stmt] <= Step(cfg, st).out
  {
    NoMarks(cfg, t, tail, st.rest);
    ControlStart(cfg, t, tail);
    var cut := st.(lineFirst := false, out := st.out + [st.stmt], stmt := []);
    assert st.(lineStart := false) == st && StartLine(st) == cut;
    PlainTurn(cfg, cut);
    TokenTaken(cfg, cut, t, tail);
  }

  lemma {:induction false} PrintSplit(ts: seq<Token>, k: nat, rest: string)
    requires 0 < k < |ts|
    ensures PrintTokens(ts, rest) == PrintTokens(ts[..k], [' '] + PrintTokens(ts[k..], rest))
  {
    if k > 1 {
      PrintSplit(ts[1..], k - 1, rest);
      assert ts[1..][k - 1..] == ts[k..] && ts[1..][..k - 1] == ts[..k][1..];
    } else {
      assert ts[..1] == [ts[0]];
    }
  }

  lemma {:induction false} ControlsOf(ts: seq<Token>)
    ensures var k := Controls(ts); Controls(ts[..k]) == k && (k < |ts| ==> !Control(ts[k]))
    ensures forall i | 0 <= i < Controls(ts) :: Control(ts[i])
  {
    if ts != [] && Control(ts[0]) {
      ControlsOf(ts[1..]);
      var k := Controls(ts);
      assert ts[..k][1..] == ts[1..][..k - 1];
    }
  }

  lemma {:induction false} AllPrintableSplit(cfg: Config, ts: seq<Token>, k: nat)
    requires AllPrintable(cfg, ts) && k < |ts|
    ensures AllPrintable(cfg, ts[..k]) && AllPrintable(cfg, ts[k..]) && Printable(cfg, ts[k])
  {
    if k > 0 {
      AllPrintableSplit(cfg, ts[1..], k - 1);
      assert ts[..k][1..] == ts[1..][..k - 1] && ts[1..][k - 1..] == ts[k..];
    } else {
      assert ts[0..] == ts;
    }
  }

  lemma CutDiffers(out: seq<Statement>, stmts: seq<Statement>, k: nat, r: seq<Statement>)
    requires stmts != [] && k < |stmts[0]| && out + [stmts[0][..k]] <= r
    ensures r != out + stmts
  {
    assert r[|out|] == stmts[0][..k] != stmts[0] == (out + stmts)[|out|];
  }

  lemma {:induction false} AllRunCut(cfg: Config, st: State, stmts: seq<Statement>)
    requires !cfg.mysql && AllPrintableStatements(cfg, stmts) && !AllWhole(stmts)
    requires AtLine(st) && st.rest == PrintAll(stmts)
    ensures Run(cfg, st) != st.out + stmts
    decreases |stmts|
  {
    if Whole(stmts[0], EndOf(stmts[1..])) {
      var next := Printed(st, stmts[0], stmts[1..]);
      StatementRuns(cfg, st, stmts[0], next);
      AllRunCut(cfg, next, stmts[1..]);
      OneMore(st.out, stmts);
    } else {
      var k := Controls(stmts[0]);
      NotWhole(stmts[0], EndOf(stmts[1..]));
      CutRuns(cfg, st, stmts[0], k, EndOf(stmts[1..]));
      CutDiffers(st.out, stmts, k, Run(cfg, st));
    }
  }

  /**
   Splitting undoes printing, whatever the statements, exactly when none is cut after control characters
   it starts with: GO and "/" lines, comments, dollar quotes and prefixed strings are never made up out
   of tokens.
   */
  lemma SplitPrinted(stmts: seq<Statement>, unicode: Unicode)
    requires AllPrintableStatements(Config(false, unicode), stmts) && !(BOM <= PrintAll(stmts))
    ensures Split(PrintAll(stmts), false, unicode) == stmts <==> AllWhole(stmts)
  {
    var text := PrintAll(stmts);
    if AllWhole(stmts) {
      AllRun(Config(false, unicode), Start(text), stmts);
    } else {
      AllRunCut(Config(false, unicode), Start(text), stmts);
    }
    assert [] + stmts == stmts;
  }

  lemma CreateWord(cfg: Config)
    requires !cfg.mysql
    ensures Printable(cfg, Token(Word, "CREATE"))
  {
    assert "CREATE"[1..] == "REATE" && "REATE"[1..] == "EATE" && "EATE"[1..] == "ATE" && "ATE"[1..] == "TE"
        && "TE"[1..] == "E" && "E"[1..] == "";
    assert WordLength(cfg, "E", ";") == 1 && WordLength(cfg, "TE", ";") == 2 && WordLength(cfg, "ATE", ";") == 3;
    assert WordLength(cfg, "EATE", ";") == 4 && WordLength(cfg, "REATE", ";") == 5;
  }

  /** A control character before CREATE is such: what it starts is split in two. */
  lemma ControlCuts(unicode: Unicode)
    ensures var stmts := [[Token(Symbol, "\U{0001}"), Token(Word, "CREATE")]];
      AllPrintableStatements(Config(false, unicode), stmts) && Split(PrintAll(stmts), false, unicode) != stmts
  {
    var cfg := Config(false, unicode);
    var control, word := Token(Symbol, "\U{0001}"), Token(Word, "CREATE");
    var stmt := [control, word];
    var stmts := [stmt];
    CreateWord(cfg);
    assert DecodeRune("\U{0001}") == Rune(1, 1);
    assert Printable(cfg, control);
    assert stmt[1..] == [word] && [word][1..] == [] && stmts[1..] == [];
    OneControl(word);
    assert AllPrintable(cfg, [word]) && AllPrintable(cfg, stmt);
    CreateStarts(EndOf([]));
    assert PrintTokens([word], EndOf([])) == "CREATE" + EndOf([]);
    assert !Whole(stmt, EndOf([]));
    ControlStart(cfg, control, LineAfter(stmt, EndOf([])));
    assert PrintAll(stmts) == PrintToken(control) + LineAfter(stmt, EndOf([]));
    SplitPrinted(stmts, unicode);
  }

  lemma CreateStarts(tail: string)
    requires After(tail)
    ensures var s := "CREATE" + tail; StartsStatement(s) && s[0] == 'C' && !("--" <= s) && !("/*" <= s)
  {
    var s := "CREATE" + tail;
    assert s[6..] == tail;
    assert StartsWithWord(s, "CREATE");
  }
}
