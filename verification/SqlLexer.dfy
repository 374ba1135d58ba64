/**
 The SQL splitter of internal/fixtures/ddl_lex.go: text into statements of tokens. A text is its bytes,
 one char each; what letters and digits there are beyond ASCII is a parameter.
 */
module SqlLexer {
  import opened Wrappers
  import opened Numbers

  datatype Kind = Word | Quoted | Str | Number | Symbol
  datatype Token = Token(kind: Kind, text: string)
  type Statement = seq<Token>

  datatype Unicode = Unicode(letter: int -> bool, digit: int -> bool)

  // -------------------------------------------------------------------- runes

  const RUNE_ERROR := 0xFFFD

  datatype Rune = Rune(code: int, size: nat)

  function ByteAt(s: string, k: nat): int {
    if k < |s| then s[k] as int else 0
  }

  predicate Continues(b: int, lo: int, hi: int) {
    lo <= b <= hi
  }

  /** The rune at the head of s, as UTF-8: an error of one byte where it is not valid. */
  function DecodeRune(s: string): (r: Rune)
    requires s != ""
    ensures 1 <= r.size <= |s| && r.size <= 4
  {
    var b0, b1, b2, b3 := ByteAt(s, 0), ByteAt(s, 1), ByteAt(s, 2), ByteAt(s, 3);
    var lo := if b0 == 0xE0 then 0xA0 else if b0 == 0xF0 then 0x90 else 0x80;
    var hi := if b0 == 0xED then 0x9F else if b0 == 0xF4 then 0x8F else 0xBF;
    if b0 < 0x80 then Rune(b0, 1)
    else if 0xC2 <= b0 <= 0xDF && Continues(b1, 0x80, 0xBF) then Rune((b0 - 0xC0) * 64 + (b1 - 0x80), 2)
    else if 0xE0 <= b0 <= 0xEF && Continues(b1, lo, hi) && Continues(b2, 0x80, 0xBF) then
      Rune(((b0 - 0xE0) * 64 + (b1 - 0x80)) * 64 + (b2 - 0x80), 3)
    else if 0xF0 <= b0 <= 0xF4 && Continues(b1, lo, hi) && Continues(b2, 0x80, 0xBF) && Continues(b3, 0x80, 0xBF) then
      Rune((((b0 - 0xF0) * 64 + (b1 - 0x80)) * 64 + (b2 - 0x80)) * 64 + (b3 - 0x80), 4)
    else Rune(RUNE_ERROR, 1)
  }

  function Encoded(s: string): string
    requires s != ""
  {
    var r := DecodeRune(s);
    if r.code == RUNE_ERROR then "\U{00EF}\U{00BF}\U{00BD}" else s[..r.size]
  }

  // ------------------------------------------------------------- fixed patterns

  function Upper(c: char): char {
    if 'a' <= c <= 'z' then c - ' ' else c
  }

  /** s starts with the word, whatever its letters' case. */
  predicate FoldPrefix(s: string, word: string) {
    |word| <= |s| && forall k | 0 <= k < |word| :: Upper(s[k]) == word[k]
  }

  predicate FoldEqual(s: string, word: string) {
    |s| == |word| && FoldPrefix(s, word)
  }

  predicate IsBlank(c: char) {
    c == ' ' || c == '\t'
  }

  /** \s */
  predicate IsSpace(c: char) {
    c == ' ' || c == '\t' || c == '\n' || c == '\U{000C}' || c == '\r'
  }

  predicate IsWordByte(c: char) {
    c == '_' || c == '$' || IsDigit(c) || 'a' <= c <= 'z' || 'A' <= c <= 'Z' || c >= '\U{0080}'
  }

  datatype CharClass = Blanks | Digits | Spaces | NonSpaces

  predicate In(p: CharClass, c: char) {
    match p
    case Blanks => IsBlank(c)
    case Digits => IsDigit(c)
    case Spaces => IsSpace(c)
    case NonSpaces => !IsSpace(c)
  }

  /** s without the characters of the class it starts with. */
  function Skip(s: string, p: CharClass): (r: string)
    ensures |r| <= |s| && (r == "" || !In(p, r[0]))
  {
    if s != "" && In(p, s[0]) then Skip(s[1..], p) else s
  }

  function SkipBlanks(s: string): string {
    Skip(s, Blanks)
  }

  function SkipDigits(s: string): string {
    Skip(s, Digits)
  }

  /** \r?$ at the end of a line. */
  predicate AtLineEnd(s: string) {
    s == "" || s == "\r"
  }

  /** The batch count GO can have. */
  function AfterCount(s: string): string {
    var blanks := SkipBlanks(s);
    if |blanks| < |s| && |SkipDigits(blanks)| < |blanks| then SkipDigits(blanks) else s
  }

  /** sqlGoLine */
  predicate GoLine(line: string) {
    var s := SkipBlanks(line);
    && FoldPrefix(s, "GO")
    && var end := SkipBlanks(AfterCount(s[2..]));
       AtLineEnd(end) || "--" <= end
  }

  /** sqlSlashLine */
  predicate SlashLine(line: string) {
    var s := SkipBlanks(line);
    s != "" && s[0] == '/' && AtLineEnd(SkipBlanks(s[1..]))
  }

  /** sqlBlockLines, of one line. */
  predicate BlockLine(line: string) {
    var s := SkipBlanks(line);
    || (FoldPrefix(s, "GO") && AtLineEnd(SkipBlanks(AfterCount(s[2..]))))
    || SlashLine(line)
  }

  /** sqlDelimiterLine: the delimiter a DELIMITER line sets. */
  function DelimiterLine(line: string): (r: Option<string>)
    ensures r.Some? ==> r.value != "" && line != ""
  {
    var s := SkipBlanks(line);
    if !FoldPrefix(s, "DELIMITER") then None
    else
      var rest := SkipBlanks(s[9..]);
      var end := Skip(rest, NonSpaces);
      if |rest| == |s| - 9 || |end| == |rest| then None else Some(rest[..|rest| - |end|])
  }

  predicate WordEnds(s: string) {
    s == "" || !(s[0] == '_' || IsDigit(s[0]) || 'a' <= s[0] <= 'z' || 'A' <= s[0] <= 'Z')
  }

  predicate StartsWithWord(s: string, word: string) {
    FoldPrefix(s, word) && WordEnds(s[|word|..])
  }

  const DROPPED :=
    ["TABLE", "VIEW", "PROCEDURE", "PROC", "FUNCTION", "TRIGGER", "SEQUENCE", "SCHEMA", "TYPE", "SYNONYM"]

  /** sqlStatementStart */
  predicate StartsStatement(s: string) {
    || StartsWithWord(s, "CREATE") || StartsWithWord(s, "EXEC") || StartsWithWord(s, "EXECUTE")
    || (FoldPrefix(s, "ALTER") && var t := Skip(s[5..], Spaces); |t| < |s| - 5 && StartsWithWord(t, "TABLE"))
    || (FoldPrefix(s, "DROP") && var t := Skip(s[4..], Spaces);
        |t| < |s| - 4 && exists w <- DROPPED :: StartsWithWord(t, w))
  }

  // ------------------------------------------------------------- statements

  predicate Is(t: Token, word: string) {
    t.kind == Word && FoldEqual(t.text, word)
  }

  /** Whether the statement makes something that holds statements. */
  predicate IsRoutine(stmt: Statement) {
    stmt != [] && Is(stmt[0], "CREATE") && Creates(stmt, 1)
  }

  predicate Creates(stmt: Statement, i: nat)
    decreases 12 - i
  {
    if i >= |stmt| || i >= 12 then false
    else
      var t := stmt[i];
      if Is(t, "TABLE") || Is(t, "VIEW") || Is(t, "INDEX") then false
      else if Is(t, "FUNCTION") || Is(t, "PROCEDURE") || Is(t, "PROC") then true
      else if Is(t, "TRIGGER") || Is(t, "EVENT") || Is(t, "PACKAGE") then true
      else if Is(t, "TYPE") then i + 1 < |stmt| && Is(stmt[i + 1], "BODY")
      else Creates(stmt, i + 1)
  }

  predicate IsAny(stmt: Statement, i: int, words: seq<string>) {
    0 <= i < |stmt| && exists w <- words :: Is(stmt[i], w)
  }

  /** The BEGIN and CASE blocks the first i tokens open and do not close. */
  function OpenBlocks(stmt: Statement, i: nat): int
    requires i <= |stmt|
  {
    if i == 0 then 0
    else
      var t := stmt[i - 1];
      OpenBlocks(stmt, i - 1)
      + (if Is(t, "BEGIN") && !IsAny(stmt, i, ["TRANSACTION", "TRAN", "WORK", "DISTRIBUTED"]) then 1
         else if Is(t, "CASE") && !IsAny(stmt, i - 2, ["END"]) then 1
         else if Is(t, "END") && !IsAny(stmt, i, ["IF", "LOOP", "WHILE", "REPEAT", "FOR"]) then -1
         else 0)
  }

  // --------------------------------------------------------------- the lexer

  datatype Config = Config(mysql: bool, unicode: Unicode)

  // rest is the text from the cursor on, and prev the byte before it.
  datatype State = State(rest: string, prev: string, lineStart: bool, lineFirst: bool, delimiter: string,
                         versioned: nat, blocks: bool, stmt: Statement, out: seq<Statement>)

  function Advance(st: State, n: nat): (r: State)
    requires 0 < n <= |st.rest|
    ensures r.rest == st.rest[n..] && r.delimiter == st.delimiter
  {
    st.(rest := st.rest[n..], prev := st.rest[n - 1..n])
  }

  function Add(st: State, kind: Kind, text: string): State {
    st.(stmt := st.stmt + [Token(kind, text)])
  }

  function End(st: State): State {
    if st.stmt == [] then st else st.(out := st.out + [st.stmt], stmt := [])
  }

  function LineLength(s: string): (n: nat)
    ensures n <= |s| && '\n' !in s[..n] && (n < |s| ==> s[n] == '\n')
  {
    if s == "" || s[0] == '\n' then 0
    else
      assert s[..1 + LineLength(s[1..])] == [s[0]] + s[1..][..LineLength(s[1..])];
      1 + LineLength(s[1..])
  }

  /** A line that is not SQL, taken. */
  function TakeLine(st: State): (r: Option<State>)
    ensures r.Some? ==> |r.value.rest| < |st.rest| && (st.delimiter != "" ==> r.value.delimiter != "")
    ensures r.Some? ==> st.out <= r.value.out
  {
    var n := LineLength(st.rest);
    var line := st.rest[..n];
    if IsSpecial(line) then Some(Advance(Special(st, line), n)) else None
  }

  /** A line that is not SQL: a DELIMITER, GO or "/", or a client's command. */
  predicate IsSpecial(line: string) {
    DelimiterLine(line).Some? || GoLine(line) || SlashLine(line)
    || (SkipBlanks(line) != "" && SkipBlanks(line)[0] == '\\')
  }

  /** What it does to the statement read so far. */
  function Special(st: State, line: string): (r: State)
    ensures r.rest == st.rest && (st.delimiter != "" ==> r.delimiter != "")
    ensures st.out <= r.out
  {
    var d := DelimiterLine(line);
    if d.Some? then End(st).(delimiter := d.value)
    else if GoLine(line) || SlashLine(line) then End(st)
    else st
  }

  predicate AtDelimiter(s: string, delimiter: string) {
    delimiter != ";" && delimiter <= s
  }

  predicate InBody(stmt: Statement, blocks: bool) {
    IsRoutine(stmt) && (blocks || OpenBlocks(stmt, |stmt|) > 0)
  }

  /** The index of sub in s. */
  function Index(s: string, sub: string): (r: Option<nat>)
    ensures r.Some? ==> r.value + |sub| <= |s|
  {
    if sub <= s then Some(0)
    else if s == "" then None
    else
      var r := Index(s[1..], sub);
      if r == None then None else Some(1 + r.value)
  }

  // Text taken and how many bytes it took.
  datatype Taken = Taken(text: string, n: nat)

  /** Quoted text after its opening quote: the closing one doubled stands for itself. */
  function TakeQuoted(s: string, closing: char, backslash: bool): (r: Taken)
    ensures r.n <= |s|
  {
    if s == "" then Taken("", 0)
    else if (backslash && s[0] == '\\' && |s| > 1) || (s[0] == closing && |s| > 1 && s[1] == closing) then
      var more := TakeQuoted(s[2..], closing, backslash);
      Taken([s[1]] + more.text, 2 + more.n)
    else if s[0] == closing then Taken("", 1)
    else
      var more := TakeQuoted(s[1..], closing, backslash);
      Taken([s[0]] + more.text, 1 + more.n)
  }

  predicate BracketQuotes(prev: string) {
    prev == "" || (!IsWordByte(prev[0]) && prev[0] !in ")]'\"$")
  }

  /** How far a dollar quote's tag goes after its "$": None when it is a parameter. */
  function TagName(s: string, first: bool): (r: Option<nat>)
    ensures r.Some? ==> r.value <= |s|
  {
    if s == "" || !IsWordByte(s[0]) || s[0] == '$' then Some(0)
    else if first && IsDigit(s[0]) then None
    else
      var r := TagName(s[1..], false);
      if r == None then None else Some(1 + r.value)
  }

  /** The dollar quote at s, which starts with a "$": "" when there is none. */
  function DollarTag(s: string): (r: string)
    requires s != ""
    ensures |r| <= |s| && r <= s
  {
    var n := TagName(s[1..], true);
    if n.Some? && 1 + n.value < |s| && s[1 + n.value] == '$' then s[..n.value + 2] else ""
  }

  function TakeDollar(s: string): (r: Taken)
    requires s != "" && DollarTag(s) != ""
    ensures 0 < r.n <= |s|
  {
    var tag := DollarTag(s);
    var body := s[|tag|..];
    var end := Index(body, tag);
    if end == None then Taken(body, |s|) else Taken(body[..end.value], |tag| + end.value + |tag|)
  }

  predicate Letter(cfg: Config, code: int) {
    if code < 0x80 then 'a' as int <= code <= 'z' as int || 'A' as int <= code <= 'Z' as int
    else code != RUNE_ERROR && cfg.unicode.letter(code)
  }

  predicate Digit(cfg: Config, code: int) {
    if code < 0x80 then '0' as int <= code <= '9' as int else code != RUNE_ERROR && cfg.unicode.digit(code)
  }

  predicate WordStart(cfg: Config, code: int) {
    Letter(cfg, code) || code == '_' as int || code == '@' as int || (code == '#' as int && !cfg.mysql)
  }

  predicate WordRune(cfg: Config, code: int) {
    && (Letter(cfg, code) || Digit(cfg, code) || code == '_' as int || code == '$' as int
        || code == '#' as int || code == '@' as int)
    && !(code == '#' as int && cfg.mysql)
  }

  function WordLength(cfg: Config, s: string, delimiter: string): (n: nat)
    ensures n <= |s|
  {
    if s == "" || !WordRune(cfg, DecodeRune(s).code) || AtDelimiter(s, delimiter) then 0
    else DecodeRune(s).size + WordLength(cfg, s[DecodeRune(s).size..], delimiter)
  }

  function NumberLength(s: string, delimiter: string): (n: nat)
    ensures n <= |s|
  {
    if s == "" || !(IsWordByte(s[0]) || s[0] == '.') || AtDelimiter(s, delimiter) then 0
    else 1 + NumberLength(s[1..], delimiter)
  }

  /** Oracle's q'Xtext X' after its q, from the quote on. */
  function TakeQ(s: string): (r: Taken)
    requires |s| >= 2
    ensures 0 < r.n <= |s|
  {
    var open := s[1];
    var closing := match open case '[' => ']' case '{' => '}' case '(' => ')' case '<' => '>' case _ => open;
    var body := s[2..];
    var end := Index(body, [closing, '\'']);
    if end == None then Taken(body, |s|) else Taken(body[..end.value], 2 + end.value + 2)
  }

  /** A word at the cursor, which may turn out to be the prefix of a string. */
  function TakeWord(cfg: Config, st: State): (r: State)
    requires st.rest != "" && WordLength(cfg, st.rest, st.delimiter) > 0
    ensures |r.rest| < |st.rest| && r.delimiter == st.delimiter && r.out == st.out
  {
    var n := WordLength(cfg, st.rest, st.delimiter);
    var w, next := st.rest[..n], Advance(st, n);
    if next.rest == "" || next.rest[0] != '\'' then Add(next, Word, w) else Prefixed(cfg, next, w)
  }

  /** The string at the cursor, by the word before it; or that word, when it is no prefix of a string. */
  function Prefixed(cfg: Config, st: State, w: string): (r: State)
    requires st.rest != "" && w != ""
    ensures |r.rest| <= |st.rest| && r.delimiter == st.delimiter && r.out == st.out
  {
    if (FoldEqual(w, "Q") || FoldEqual(w, "NQ")) && !cfg.mysql && |st.rest| > 1 then
      Add(Advance(st, TakeQ(st.rest).n), Str, TakeQ(st.rest).text)
    else if FoldEqual(w, "E") then TakeString(st, Str, '\'', true)
    else if FoldEqual(w, "N") || FoldEqual(w, "X") || FoldEqual(w, "B") || w[0] == '_' then
      TakeString(st, Str, '\'', cfg.mysql)
    else Add(st, Word, w)
  }

  /** The quoted text at the cursor. */
  function TakeString(st: State, kind: Kind, closing: char, backslash: bool): (r: State)
    requires st.rest != ""
    ensures |r.rest| < |st.rest| && r.delimiter == st.delimiter && r.out == st.out
  {
    var q := TakeQuoted(st.rest[1..], closing, backslash);
    Add(Advance(st, 1 + q.n), kind, q.text)
  }

  /** The statement so far ends where the line at hand begins a new one. */
  function StartLine(st: State): (r: State)
    requires st.rest != ""
    ensures r.rest == st.rest && r.delimiter == st.delimiter
    ensures st.out <= r.out
  {
    if st.lineFirst && st.rest[0] > ' ' && !("--" <= st.rest) && !("/*" <= st.rest) then
      var first := st.(lineFirst := false);
      if st.stmt != [] && !IsRoutine(st.stmt) && StartsStatement(st.rest) then End(first) else first
    else st
  }

  function Comment(s: string): (n: nat)
    requires |s| >= 2
    ensures 0 < n <= |s|
  {
    var end := Index(s[2..], "*/");
    if end == None then |s| else end.value + 4
  }

  function VersionLength(s: string): (n: nat)
    requires |s| >= 3
    ensures 3 <= n <= |s|
  {
    |s| - |SkipDigits(s[3..])|
  }

  predicate LineComment(cfg: Config, s: string) {
    "--" <= s && (!cfg.mysql || |s| == 2 || s[2] <= ' ')
  }

  /** One turn of the loop, past the lines that are not SQL. */
  function Turn(cfg: Config, st: State): (r: State)
    requires st.rest != "" && st.delimiter != ""
    ensures |r.rest| < |st.rest| && r.delimiter != ""
    ensures st.out <= r.out
  {
    var s, c := st.rest, st.rest[0];
    if c == '\n' then Advance(st, 1).(lineStart := true, lineFirst := true)
    else if c == ' ' || c == '\t' || c == '\r' || c == '\U{000C}' || c == '\U{000B}' then Advance(st, 1)
    else if AtDelimiter(s, st.delimiter) then Advance(End(st), |st.delimiter|)
    else if c == ';' && st.delimiter == ";" then
      if InBody(st.stmt, st.blocks) then Add(Advance(st, 1), Symbol, ";") else End(Advance(st, 1))
    else if CommentLength(cfg, s) > 0 then Advance(st, CommentLength(cfg, s))
    else TakeMarkOrToken(cfg, st)
  }

  /** How long the comment at s is: 0 when there is none. MySQL's versioned comments are SQL. */
  function CommentLength(cfg: Config, s: string): (n: nat)
    requires s != ""
    ensures n <= |s|
  {
    if LineComment(cfg, s) || (s[0] == '#' && cfg.mysql) then LineLength(s)
    else if "/*" <= s && !("/*!" <= s && cfg.mysql) then Comment(s)
    else 0
  }

  /** The ends of MySQL's versioned comments are skipped: what is between them is SQL. */
  function TakeMarkOrToken(cfg: Config, st: State): (r: State)
    requires st.rest != "" && !AtDelimiter(st.rest, st.delimiter)
    ensures |r.rest| < |st.rest| && r.delimiter == st.delimiter && r.out == st.out
  {
    if "/*!" <= st.rest && cfg.mysql then Advance(st, VersionLength(st.rest)).(versioned := st.versioned + 1)
    else if "*/" <= st.rest && st.versioned > 0 then Advance(st, 2).(versioned := st.versioned - 1)
    else TakeToken(cfg, st)
  }

  /** The token at the cursor. */
  function TakeToken(cfg: Config, st: State): (r: State)
    requires st.rest != "" && !AtDelimiter(st.rest, st.delimiter)
    ensures |r.rest| < |st.rest| && r.delimiter == st.delimiter && r.out == st.out
  {
    var s, c := st.rest, st.rest[0];
    if c == '\'' then TakeString(st, Str, '\'', cfg.mysql)
    else if c == '"' && cfg.mysql then TakeString(st, Str, '"', true)
    else if c == '"' || c == '`' then TakeString(st, Quoted, c, false)
    else if c == '[' && BracketQuotes(st.prev) then TakeString(st, Quoted, ']', false)
    else if c == '$' && !cfg.mysql && DollarTag(s) != "" then Add(Advance(st, TakeDollar(s).n), Str, TakeDollar(s).text)
    else TakeBare(cfg, st)
  }

  /** A number, a word or a symbol. */
  function TakeBare(cfg: Config, st: State): (r: State)
    requires st.rest != "" && !AtDelimiter(st.rest, st.delimiter)
    ensures |r.rest| < |st.rest| && r.delimiter == st.delimiter && r.out == st.out
  {
    var s := st.rest;
    if IsDigit(s[0]) then
      assert NumberLength(s, st.delimiter) > 0;
      var n := NumberLength(s, st.delimiter);
      Add(Advance(st, n), Number, s[..n])
    else
      var r := DecodeRune(s);
      if WordStart(cfg, r.code) then TakeWord(cfg, st)
      else Add(Advance(st, r.size), Symbol, Encoded(s))
  }

  function Step(cfg: Config, st: State): (r: State)
    requires st.rest != "" && st.delimiter != ""
    ensures |r.rest| < |st.rest| && r.delimiter != ""
    ensures st.out <= r.out
  {
    var line := if st.lineStart then TakeLine(st) else None;
    if line.Some? then line.value else Turn(cfg, StartLine(st.(lineStart := false)))
  }

  function Run(cfg: Config, st: State): seq<Statement>
    requires st.delimiter != ""
    decreases |st.rest|
  {
    if st.rest == "" then End(st).out else Run(cfg, Step(cfg, st))
  }

  const BOM := "\U{00EF}\U{00BB}\U{00BF}"

  /** The text without a byte order mark. */
  function TrimBOM(src: string): string {
    if BOM <= src then src[3..] else src
  }

  function Start(src: string): State {
    State(src, "", true, true, ";", 0, HasBlockLine(src), [], [])
  }

  predicate HasBlockLine(s: string)
    decreases |s|
  {
    var n := LineLength(s);
    BlockLine(s[..n]) || (n < |s| && HasBlockLine(s[n + 1..]))
  }

  function Split(text: string, mysql: bool, unicode: Unicode): seq<Statement> {
    var src := TrimBOM(text);
    Run(Config(mysql, unicode), Start(src))
  }

  // ---------------------------------------------------------------- the code

  lemma Slices(src: string, i: nat, n: nat)
    requires i + n <= |src|
    ensures src[i..][n..] == src[i + n..]
    ensures n > 0 ==> src[i..][n - 1..n] == src[i + n - 1..i + n]
  {}

  /** The whole text is what is already taken, n bytes, and what is left to take. */
  ghost predicate Leads(whole: Taken, text: string, n: nat, left: Taken) {
    whole == Taken(text + left.text, n + left.n)
  }

  lemma LeadsOn(whole: Taken, text: string, n: nat, piece: string, m: nat, left: Taken)
    requires Leads(whole, text, n, Taken(piece + left.text, m + left.n))
    ensures Leads(whole, text + piece, n + m, left)
  {
    assert (text + piece) + left.text == text + (piece + left.text);
  }

  class Lexer {
    const src: string
    const cfg: Config
    const blocks: bool
    var i: nat
    var delimiter: string
    var versioned: nat
    var stmt: Statement
    var out: seq<Statement>

    ghost predicate Valid()
      reads this
    {
      i <= |src| && delimiter != ""
    }

    /** The lexer's state, given where the loop is in a line. */
    ghost function St(lineStart: bool, lineFirst: bool): State
      requires Valid()
      reads this
    {
      var prev := if i == 0 then "" else src[i - 1..i];
      State(src[i..], prev, lineStart, lineFirst, delimiter, versioned, blocks, stmt, out)
    }

    constructor (src: string, cfg: Config)
      ensures Valid() && this.cfg == cfg && this.src == src && St(true, true) == Start(src)
    {
      this.src, this.cfg, blocks := src, cfg, HasBlockLine(src);
      i, delimiter, versioned, stmt, out := 0, ";", 0, [], [];
      new;
      assert src[0..] == src;
    }

    method AddToken(kind: Kind, text: string, ghost ls: bool, ghost lf: bool)
      requires Valid()
      modifies this`stmt
      ensures Valid() && St(ls, lf) == Add(old(St(ls, lf)), kind, text)
    {
      stmt := stmt + [Token(kind, text)];
    }

    method EndStatement(ghost ls: bool, ghost lf: bool)
      requires Valid()
      modifies this`stmt, this`out
      ensures Valid() && St(ls, lf) == End(old(St(ls, lf)))
    {
      if |stmt| > 0 {
        out := out + [stmt];
      }
      stmt := [];
    }

    method Move(n: nat, ghost ls: bool, ghost lf: bool)
      requires Valid() && 0 < n <= |src| - i
      modifies this`i
      ensures Valid() && i == old(i) + n && St(ls, lf) == Advance(old(St(ls, lf)), n)
    {
      Slices(src, i, n);
      i := i + n;
    }

    /** How far the line goes. */
    method LineEnd() returns (n: nat)
      requires Valid()
      ensures n == LineLength(src[i..])
    {
      n := 0;
      while i + n < |src| && src[i + n] != '\n'
        invariant i + n <= |src| && LineLength(src[i..]) == n + LineLength(src[i + n..])
      {
        assert src[i + n..][1..] == src[i + n + 1..];
        n := n + 1;
      }
    }

    /** Skips a special line at the cursor, with what it does; says if there was one. */
    method TakeSpecialLine(ghost lf: bool) returns (took: bool)
      requires Valid()
      modifies this
      ensures Valid() && (took ==> old(i) < i)
      ensures var r := TakeLine(old(St(true, lf)));
              if r == None then !took && St(true, lf) == old(St(true, lf)) else took && St(true, lf) == r.value
    {
      var n := LineEnd();
      var line := src[i..i + n];
      assert src[i..][..n] == line;
      took := TakeSpecial(line, lf);
      if took { Move(n, true, lf); }
    }

    /** What a line that is not SQL does before it is taken. */
    method TakeSpecial(line: string, ghost lf: bool) returns (special: bool)
      requires Valid()
      modifies this`stmt, this`out, this`delimiter
      ensures Valid() && St(true, lf) == Special(old(St(true, lf)), line) && special == IsSpecial(line)
    {
      var d := DelimiterLine(line);
      if d.Some? {
        EndStatement(true, lf);
        delimiter := d.value;
        return true;
      }
      if GoLine(line) || SlashLine(line) {
        EndStatement(true, lf);
        return true;
      }
      var s := SkipBlanks(line);
      return s != "" && s[0] == '\\';
    }

    /** The quoted text whose opening quote is at the cursor, and how far it goes after it. */
    method ReadQuoted(closing: char, backslash: bool) returns (text: string, n: nat)
      requires Valid() && i < |src|
      ensures TakeQuoted(src[i..][1..], closing, backslash) == Taken(text, n)
    {
      assert src[i..][1..] == src[i + 1..];
      ghost var q := TakeQuoted(src[i + 1..], closing, backslash);
      var k := i + 1;
      text := "";
      while k < |src|
        invariant i < k <= |src|
        invariant Leads(q, text, k - i - 1, TakeQuoted(src[k..], closing, backslash))
      {
        var c := src[k];
        assert src[k..][1..] == src[k + 1..] && (k + 1 < |src| ==> src[k..][2..] == src[k + 2..]);
        if (backslash && c == '\\' && k + 1 < |src|) || (c == closing && k + 1 < |src| && src[k + 1] == closing) {
          LeadsOn(q, text, k - i - 1, [src[k + 1]], 2, TakeQuoted(src[k + 2..], closing, backslash));
          text, k := text + [src[k + 1]], k + 2;
        } else if c == closing {
          assert text + "" == text;
          return text, k - i;
        } else {
          LeadsOn(q, text, k - i - 1, [c], 1, TakeQuoted(src[k + 1..], closing, backslash));
          text, k := text + [c], k + 1;
        }
      }
      assert TakeQuoted(src[k..], closing, backslash) == Taken("", 0) && text + "" == text;
      return text, |src| - i - 1;
    }

    /** The quoted text at the cursor, as a token. */
    method AddQuoted(kind: Kind, closing: char, backslash: bool, ghost ls: bool, ghost lf: bool)
      requires Valid() && i < |src|
      modifies this`i, this`stmt
      ensures Valid() && old(i) < i && St(ls, lf) == TakeString(old(St(ls, lf)), kind, closing, backslash)
    {
      var text, n := ReadQuoted(closing, backslash);
      Move(1 + n, ls, lf);
      AddToken(kind, text, ls, lf);
    }

    /** The bytes that are part of a number, and of a word. */
    method NumberEnd() returns (n: nat)
      requires Valid()
      ensures n == NumberLength(src[i..], delimiter) && i + n <= |src|
    {
      n := 0;
      while i + n < |src| && (IsWordByte(src[i + n]) || src[i + n] == '.') && !AtDelimiter(src[i + n..], delimiter)
        invariant i + n <= |src| && NumberLength(src[i..], delimiter) == n + NumberLength(src[i + n..], delimiter)
      {
        assert src[i + n..][1..] == src[i + n + 1..];
        n := n + 1;
      }
    }

    method WordEnd() returns (n: nat)
      requires Valid()
      ensures n == WordLength(cfg, src[i..], delimiter) && i + n <= |src|
    {
      var rest := src[i..];
      n := 0;
      while rest != ""
        invariant n + |rest| == |src| - i
        invariant WordLength(cfg, src[i..], delimiter) == n + WordLength(cfg, rest, delimiter)
        decreases |rest|
      {
        var r := DecodeRune(rest);
        if !WordRune(cfg, r.code) || AtDelimiter(rest, delimiter) {
          return;
        }
        n, rest := n + r.size, rest[r.size..];
      }
    }

    method ReadWord(ghost ls: bool, ghost lf: bool)
      requires Valid() && i < |src| && WordLength(cfg, src[i..], delimiter) > 0
      modifies this`i, this`stmt
      ensures Valid() && old(i) < i && St(ls, lf) == TakeWord(cfg, old(St(ls, lf)))
    {
      ghost var st := St(ls, lf);
      var n := WordEnd();
      var w := src[i..i + n];
      assert st.rest[..n] == w;
      Move(n, ls, lf);
      if i >= |src| || src[i] != '\'' {
        AddToken(Word, w, ls, lf);
      } else {
        AddPrefixed(w, ls, lf);
      }
    }

    /** The string at the cursor, by the word before it; or that word, when it is no prefix of a string. */
    method AddPrefixed(w: string, ghost ls: bool, ghost lf: bool)
      requires Valid() && i < |src| && w != ""
      modifies this`i, this`stmt
      ensures Valid() && old(i) <= i && St(ls, lf) == Prefixed(cfg, old(St(ls, lf)), w)
    {
      if (FoldEqual(w, "Q") || FoldEqual(w, "NQ")) && !cfg.mysql && i + 1 < |src| {
        var q := TakeQ(src[i..]);
        Move(q.n, ls, lf);
        AddToken(Str, q.text, ls, lf);
      } else if FoldEqual(w, "E") {
        AddQuoted(Str, '\'', true, ls, lf);
      } else if FoldEqual(w, "N") || FoldEqual(w, "X") || FoldEqual(w, "B") || w[0] == '_' {
        AddQuoted(Str, '\'', cfg.mysql, ls, lf);
      } else {
        AddToken(Word, w, ls, lf);
      }
    }

    method ReadDollar(ghost ls: bool, ghost lf: bool)
      requires Valid() && i < |src| && DollarTag(src[i..]) != ""
      modifies this`i, this`stmt
      ensures Valid() && old(i) < i
      ensures var st := old(St(ls, lf));
        St(ls, lf) == Add(Advance(st, TakeDollar(st.rest).n), Str, TakeDollar(st.rest).text)
    {
      var d := TakeDollar(src[i..]);
      Move(d.n, ls, lf);
      AddToken(Str, d.text, ls, lf);
    }

    method ReadToken(ghost ls: bool, ghost lf: bool)
      requires Valid() && i < |src| && !AtDelimiter(src[i..], delimiter)
      modifies this`i, this`stmt
      ensures Valid() && old(i) < i && St(ls, lf) == TakeToken(cfg, old(St(ls, lf)))
    {
      var c := src[i];
      if c == '\'' {
        AddQuoted(Str, c, cfg.mysql, ls, lf);
      } else if c == '"' && cfg.mysql {
        AddQuoted(Str, c, true, ls, lf);
      } else if c == '"' || c == '`' {
        AddQuoted(Quoted, c, false, ls, lf);
      } else if c == '[' && BracketQuotes(if i == 0 then "" else src[i - 1..i]) {
        AddQuoted(Quoted, ']', false, ls, lf);
      } else if c == '$' && !cfg.mysql && DollarTag(src[i..]) != "" {
        ReadDollar(ls, lf);
      } else {
        ReadBare(ls, lf);
      }
    }

    method ReadNumber(ghost ls: bool, ghost lf: bool)
      requires Valid() && i < |src| && !AtDelimiter(src[i..], delimiter) && IsDigit(src[i])
      modifies this`i, this`stmt
      ensures Valid() && old(i) < i && St(ls, lf) == TakeBare(cfg, old(St(ls, lf)))
    {
      var s := src[i..];
      var n := NumberEnd();
      Move(n, ls, lf);
      AddToken(Number, s[..n], ls, lf);
    }

    method ReadBare(ghost ls: bool, ghost lf: bool)
      requires Valid() && i < |src| && !AtDelimiter(src[i..], delimiter)
      modifies this`i, this`stmt
      ensures Valid() && old(i) < i && St(ls, lf) == TakeBare(cfg, old(St(ls, lf)))
    {
      if IsDigit(src[i]) {
        ReadNumber(ls, lf);
      } else {
        var s := src[i..];
        var r := DecodeRune(s);
        if WordStart(cfg, r.code) {
          ReadWord(ls, lf);
        } else {
          Move(r.size, ls, lf);
          AddToken(Symbol, Encoded(s), ls, lf);
        }
      }
    }

    /** The mark that opens or closes a versioned comment, and how deep it leaves them. */
    method ReadMark(n: nat, depth: nat, ghost ls: bool, ghost lf: bool)
      requires Valid() && 0 < n <= |src| - i
      modifies this`i, this`versioned
      ensures Valid() && old(i) < i && St(ls, lf) == Advance(old(St(ls, lf)), n).(versioned := depth)
    {
      Move(n, ls, lf);
      versioned := depth;
    }

    /** The mark of a versioned comment, or a token. */
    method ReadMarkOrToken(ghost ls: bool, ghost lf: bool)
      requires Valid() && i < |src| && !AtDelimiter(src[i..], delimiter)
      modifies this`i, this`stmt, this`versioned
      ensures Valid() && old(i) < i && St(ls, lf) == TakeMarkOrToken(cfg, old(St(ls, lf)))
    {
      var rest := src[i..];
      if "/*!" <= rest && cfg.mysql {
        ReadMark(VersionLength(rest), versioned + 1, ls, lf);
      } else if "*/" <= rest && versioned > 0 {
        ReadMark(2, versioned - 1, ls, lf);
      } else {
        ReadToken(ls, lf);
      }
    }

    /** Ends the statement so far where the line at hand begins a new one; says whether the line is still to begin. */
    method BeginLine(lineFirst: bool) returns (stillFirst: bool)
      requires Valid() && i < |src|
      modifies this`stmt, this`out
      ensures Valid() && St(false, stillFirst) == StartLine(old(St(false, lineFirst)))
    {
      var c, rest := src[i], src[i..];
      if lineFirst && c > ' ' && !("--" <= rest) && !("/*" <= rest) {
        if |stmt| > 0 && !IsRoutine(stmt) && StartsStatement(rest) {
          EndStatement(false, false);
        }
        return false;
      }
      return lineFirst;
    }

    /** One turn of the loop, on what is SQL: whether it was a line end. */
    method ReadTurn(ghost lf: bool) returns (newLine: bool)
      requires Valid() && i < |src|
      modifies this
      ensures Valid() && old(i) < i && newLine == (old(src[i]) == '\n')
      ensures (if newLine then St(true, true) else St(false, lf)) == Turn(cfg, old(St(false, lf)))
    {
      var c, rest := src[i], src[i..];
      newLine := c == '\n';
      if c == '\n' {
        Move(1, true, true);
      } else if c == ' ' || c == '\t' || c == '\r' || c == '\U{000C}' || c == '\U{000B}' {
        Move(1, false, lf);
      } else if AtDelimiter(rest, delimiter) {
        EndStatement(false, lf);
        Move(|delimiter|, false, lf);
      } else if c == ';' && delimiter == ";" {
        Move(1, false, lf);
        if InBody(stmt, blocks) {
          AddToken(Symbol, ";", false, lf);
        } else {
          EndStatement(false, lf);
        }
      } else if CommentLength(cfg, rest) > 0 {
        Move(CommentLength(cfg, rest), false, lf);
      } else {
        ReadMarkOrToken(false, lf);
      }
    }
  }

  /** The statements of a SQL file. The loop ends on any text: every turn of it takes some. */
  method SplitSQL(text: string, mysql: bool, unicode: Unicode) returns (out: seq<Statement>)
    ensures out == Split(text, mysql, unicode)
  {
    var cfg := Config(mysql, unicode);
    var l := new Lexer(TrimBOM(text), cfg);
    var lineStart, lineFirst := true, true;
    while l.i < |l.src|
      invariant l.Valid() && l.cfg == cfg
      invariant Run(cfg, l.St(lineStart, lineFirst)) == Split(text, mysql, unicode)
      decreases |l.src| - l.i
    {
      ghost var st, at := l.St(lineStart, lineFirst), l.i;
      var took := false;
      if lineStart {
        took := l.TakeSpecialLine(lineFirst);
      }
      if !took {
        lineStart := false;
        lineFirst := l.BeginLine(lineFirst);
        var newLine := l.ReadTurn(lineFirst);
        if newLine {
          lineStart, lineFirst := true, true;
        }
      }
      assert l.St(lineStart, lineFirst) == Step(cfg, st);
    }
    assert l.St(lineStart, lineFirst).rest == "";
    l.EndStatement(lineStart, lineFirst);
    return l.out;
  }
}
