/**
 The value rule of core/value.go: what a cell's text is as a typed value, and, of a number that JSON would
 not take, the form proposed for it.
 */
module ValueRule {
  import opened Wrappers
  import opened Numbers
  import opened Sequences
  import opened Json
  import opened ValueExpand

  datatype Kind = StringKind | IntegerKind | LongKind | DecimalKind | BooleanKind | NullKind | ObjectKind | ArrayKind

  datatype TypedValue = TypedValue(text: string, kind: Kind, undefined: bool, json: string) {
    /** The value's string, when it is one. */
    function Str(): Option<string> {
      if kind != StringKind || undefined then None else Unquote(json)
    }
  }

  // A refusal proposes forms: the plain number, if the text could be one, and the quoted text.
  datatype Parsed =
    | Accepted(value: TypedValue)
    | EmptyCell
    | UndefinedHere
    | NotJson
    | Ambiguous(number: Option<string>, quoted: string)

  // ------------------------------------------------------------ number forms

  /** numberParts: a number's decimal forms, without a sign. */
  datatype Parts = Parts(whole: string, dot: string, fraction: string, exponent: string, suffix: string)

  function PartsText(p: Parts): string {
    p.whole + (p.dot + (p.fraction + (p.exponent + p.suffix)))
  }

  predicate IsSuffix(s: string) {
    s == "" || (|s| == 1 && s[0] in "fFdDlL")
  }

  predicate IsLongSuffix(s: string) {
    s == "l" || s == "L"
  }

  /** The submatches of numberParts: what each group takes, digits first. */
  predicate ValidParts(p: Parts) {
    && AllDigits(p.whole)
    && (p.dot == "" || p.dot == ".")
    && AllDigits(p.fraction) && (p.dot == "" ==> p.fraction == "")
    && IsExponent(p.exponent)
    && IsSuffix(p.suffix)
  }

  function ReadParts(t: string): (r: Option<Parts>)
    ensures r.Some? ==> ValidParts(r.value) && t == PartsText(r.value)
  {
    var whole := Digits(t);
    var dot := if whole.rest != "" && whole.rest[0] == '.' then "." else "";
    var fraction := if dot == "" then Read("", whole.rest) else Digits(whole.rest[1..]);
    assert whole.rest == dot + (fraction.value + fraction.rest);
    var exponent := ReadExponent(fraction.rest);
    if IsSuffix(exponent.rest) then Some(Parts(whole.value, dot, fraction.value, exponent.value, exponent.rest))
    else None
  }

  /** hexText, without a sign: the digits and the suffix. */
  datatype HexParts = HexParts(mark: string, digits: string, suffix: string)

  predicate AllHex(s: string) {
    forall c <- s :: IsHex(c)
  }

  function ReadHex(t: string): (r: Option<HexParts>)
    ensures r.Some? ==> t == r.value.mark + r.value.digits + r.value.suffix && AllHex(r.value.digits)
                        && r.value.digits != "" && (r.value.suffix == "" || IsLongSuffix(r.value.suffix))
  {
    if |t| < 3 || t[0] != '0' || (t[1] != 'x' && t[1] != 'X') then None
    else
      var long := t[|t| - 1] == 'l' || t[|t| - 1] == 'L';
      var end := if long then |t| - 1 else |t|;
      if end > 2 && AllHex(t[2..end]) then Some(HexParts(t[..2], t[2..end], t[end..])) else None
  }

  function Unsigned(t: string): string {
    if t != "" && (t[0] == '+' || t[0] == '-') then t[1..] else t
  }

  /** numberLike: what one may read as a number, whether JSON does or not. */
  predicate NumberLike(t: string) {
    var u := Unsigned(t);
    || ReadHex(u).Some?
    || var p := ReadParts(u); p.Some? && (p.value.whole != "" || p.value.fraction != "")
  }

  function TrimSigns(t: string): string {
    if t != "" && (t[0] == '+' || t[0] == '-') then TrimSigns(t[1..]) else t
  }

  /** Lower case, of the letters whose lower case is an ASCII letter. */
  function Lower(c: char): char {
    if 'A' <= c <= 'Z' then c + ' '
    else if c == '\U{0130}' then 'i'
    else if c == '\U{212A}' then 'k'
    else c
  }

  predicate SpecialNumber(t: string) {
    var u := TrimSigns(t);
    var s := seq(|u|, i requires 0 <= i < |u| => Lower(u[i]));
    s == "nan" || s == "infinity" || s == "inf"
  }

  function NumberOf(t: string): Option<Cst> {
    var r := ReadNumber(t);
    if r.Bad? || r.rest != "" then None else Some(r.value)
  }

  /** integerText */
  predicate IsInteger(t: string) {
    var n := NumberOf(t);
    n.Some? && n.value.fraction == "" && n.value.exponent == ""
  }

  /** longText */
  predicate IsLong(t: string) {
    t != "" && IsLongSuffix(t[|t| - 1..]) && IsInteger(t[..|t| - 1])
  }

  /** decimalText */
  predicate IsDecimal(t: string) {
    var n := NumberOf(t);
    n.Some? && (n.value.fraction != "" || n.value.exponent != "")
  }

  predicate Quoted(t: string) {
    |t| >= 2 && t[0] == '"' && t[|t| - 1] == '"'
  }

  predicate Bracketed(t: string) {
    t != "" && ((t[0] == '{' && t[|t| - 1] == '}') || (t[0] == '[' && t[|t| - 1] == ']'))
  }

  // ---------------------------------------------------------------- the rule

  function InQuotes(t: string): string {
    "\"" + t + "\""
  }

  function ParseValue(text: string, empty: bool, undefined: bool): (p: Parsed)
    ensures p.Ambiguous? ==> p == ParseBare(text)
  {
    if empty then EmptyCell
    else if Quoted(text) then Accepted(TypedValue(text, StringKind, false, Quote(text[1..|text| - 1])))
    else if text == "undefined" then
      if undefined then Accepted(TypedValue(text, NullKind, true, "")) else UndefinedHere
    else if text == "null" then Accepted(TypedValue(text, NullKind, false, "null"))
    else if text == "true" || text == "false" then Accepted(TypedValue(text, BooleanKind, false, text))
    else ParseBare(text)
  }

  function ParseBare(text: string): Parsed {
    if IsInteger(text) then Accepted(TypedValue(text, IntegerKind, false, text))
    else if IsLong(text) then Accepted(TypedValue(text, LongKind, false, text[..|text| - 1]))
    else if IsDecimal(text) then Accepted(TypedValue(text, DecimalKind, false, text))
    else ParseOther(text)
  }

  function ParseOther(text: string): Parsed {
    if Bracketed(text) then
      if ReadText(text) == None then NotJson
      else Accepted(TypedValue(text, if text[0] == '[' then ArrayKind else ObjectKind, false, text))
    else if NumberLike(text) || SpecialNumber(text) then Ambiguous(PlainNumber(text), InQuotes(text))
    else Accepted(TypedValue(text, StringKind, false, Quote(text)))
  }

  function TrimZeros(s: string): string {
    if s != "" && s[0] == '0' then TrimZeros(s[1..]) else s
  }

  function PlainWhole(whole: string): string {
    var trimmed := TrimZeros(whole);
    if trimmed == "" then "0" else trimmed
  }

  /** The parts of the plain form. */
  function PlainParts(p: Parts): Parts {
    var whole := PlainWhole(p.whole);
    var fraction := if p.dot != "" && p.fraction == "" then "0" else p.fraction;
    var isInteger := p.dot == "" && p.exponent == "";
    if IsLongSuffix(p.suffix) then Parts(whole, p.dot, fraction, p.exponent, if isInteger then p.suffix else "")
    else if p.suffix == "" || !isInteger then Parts(whole, p.dot, fraction, p.exponent, "")
    else Parts(whole, ".", "0", p.exponent, "")
  }

  function PlainNumber(text: string): Option<string> {
    var t := if text != "" && text[0] == '+' then text[1..] else text;
    var negative := t != "" && t[0] == '-';
    var u := if negative then t[1..] else t;
    var sign := if negative then "-" else "";
    var hex := ReadHex(u);
    if hex.Some? then Some(sign + (Decimal(HexNumber(hex.value.digits)) + hex.value.suffix))
    else
      var p := ReadParts(u);
      if p == None then None else Some(sign + PartsText(PlainParts(p.value)))
  }

  // ---------------------------------------------------------- what it denotes

  function HexNumber(s: string): nat {
    if s == "" then 0 else HexNumber(s[..|s| - 1]) * 16 + HexValue(s[|s| - 1])
  }

  function Pow10(i: int): (r: real)
    ensures r > 0.0
    decreases if i < 0 then -i else i
  {
    if i == 0 then 1.0 else if i > 0 then 10.0 * Pow10(i - 1) else Pow10(i + 1) / 10.0
  }

  function ExponentValue(e: string): int {
    if e == "" then 0
    else
      var digits: int := DigitsValue(e[1..][SignLength(e[1..])..]);
      if |e| > 1 && e[1] == '-' then -digits else digits
  }

  function Scaled(n: nat, e: int): real {
    n as real * Pow10(e)
  }

  /** The number the parts denote: their suffix does not change it. */
  function PartsValue(p: Parts): real {
    Scaled(DigitsValue(p.whole + p.fraction), ExponentValue(p.exponent) - |p.fraction|)
  }

  function UnsignedValue(u: string): real {
    var hex, p := ReadHex(u), ReadParts(u);
    if hex.Some? then HexNumber(hex.value.digits) as real
    else if p.Some? then PartsValue(p.value)
    else 0.0
  }

  function Negated(minus: bool, x: real): real {
    if minus then -x else x
  }

  // A number as it is typed: its kind and its value.
  datatype Numeral = Numeral(kind: Kind, value: real)

  /** The rational number a number-like text denotes, whatever form it is in. */
  function Rational(t: string): Option<real> {
    var u := Unsigned(t);
    if ReadHex(u) == None && ReadParts(u) == None then None
    else Some(Negated(t != "" && t[0] == '-', UnsignedValue(u)))
  }

  function PartsKind(p: Parts): Kind {
    if p.dot != "" || p.exponent != "" then DecimalKind
    else if p.suffix == "" then IntegerKind
    else if IsLongSuffix(p.suffix) then LongKind
    else DecimalKind
  }

  function UnsignedKind(u: string): Kind {
    var hex, p := ReadHex(u), ReadParts(u);
    if hex.Some? then if hex.value.suffix == "" then IntegerKind else LongKind
    else if p.Some? then PartsKind(p.value)
    else StringKind
  }

  /** The kind of number a number-like text is. */
  function NumberKind(t: string): Kind {
    UnsignedKind(Unsigned(t))
  }

  // ------------------------------------------------------------- number texts

  lemma {:induction false} PartsRead(p: Parts)
    requires ValidParts(p)
    ensures ReadParts(PartsText(p)) == Some(p)
  {
    var afterExponent := p.exponent + p.suffix;
    ExponentReads(p.exponent, p.suffix);
    assert NoDotOrDigit(afterExponent);
    DigitsRead(p.fraction, afterExponent);
    var afterWhole := p.dot + (p.fraction + afterExponent);
    if p.dot == "" {
      assert afterWhole == afterExponent;
    } else {
      Cons('.', p.fraction + afterExponent);
      assert afterWhole == ['.'] + (p.fraction + afterExponent);
    }
    DigitsRead(p.whole, afterWhole);
  }

  predicate NoDotOrDigit(s: string) {
    s == "" || (!IsDigit(s[0]) && s[0] != '.')
  }

  /** A JSON number, as it reads: its text starts with a digit, or with a minus and a digit. */
  lemma NumberReadsBack(minus: bool, w: string, f: string, e: string)
    requires IsWhole(w) && IsFraction(f) && IsExponent(e)
    ensures var t := (if minus then "-" else "") + (w + (f + e));
            && NumberOf(t) == Some(Number(minus, w, f, e))
            && t != "" && (t[0] == '-' || IsDigit(t[0])) && t[0] != '"' && t[0] != '+'
  {
    var c := Number(minus, w, f, e);
    var s := w + (f + (e + ""));
    assert e + "" == e;
    assert s[0] == w[0] && IsDigit(w[0]);
    assert "" + s == s;
    UnsignedReads(c, s, "");
  }

  // ------------------------------------------------------------------ values

  lemma {:induction false} Pow10Step(i: int)
    ensures Pow10(i + 1) == 10.0 * Pow10(i)
  {
  }

  lemma {:induction false} TrimZerosWhole(s: string)
    requires AllDigits(s)
    ensures AllDigits(TrimZeros(s)) && (TrimZeros(s) == "" || IsWhole(TrimZeros(s)))
  {
    if s != "" && s[0] == '0' {
      assert forall c <- s[1..] :: c in s;
      TrimZerosWhole(s[1..]);
    }
  }

  lemma {:induction false} TrimZerosSame(s: string, f: string)
    ensures DigitsValue(TrimZeros(s) + f) == DigitsValue(s + f)
  {
    if s != "" && s[0] == '0' {
      TrimZerosSame(s[1..], f);
      LeadingZero(s[1..] + f);
      assert s + f == "0" + (s[1..] + f);
    }
  }

  lemma {:induction false} LeadingZero(s: string)
    ensures DigitsValue("0" + s) == DigitsValue(s)
  {
    if s == "" {
      assert ("0" + s)[..0] == "";
    } else {
      LeadingZero(s[..|s| - 1]);
      assert ("0" + s)[..|s|] == "0" + s[..|s| - 1];
    }
  }

  lemma ScaledStep(n: nat, e: int)
    ensures Scaled(n * 10, e - 1) == Scaled(n, e)
  {
    Pow10Step(e - 1);
    var p := Pow10(e - 1);
    assert (n * 10) as real * p == n as real * (10.0 * p);
  }

  lemma NewFraction(whole: string, e: int)
    ensures Scaled(DigitsValue(whole + "0"), e - 1) == Scaled(DigitsValue(whole + ""), e)
  {
    assert (whole + "0")[..|whole|] == whole && whole + "" == whole;
    ScaledStep(DigitsValue(whole), e);
  }

  lemma PlainPartsValid(p: Parts)
    requires ValidParts(p)
    ensures var q := PlainParts(p);
            ValidParts(q) && IsWhole(q.whole) && (q.dot == "" || q.fraction != "") && q.exponent == p.exponent
  {
    TrimZerosWhole(p.whole);
  }

  lemma PlainWholeSame(whole: string, f: string)
    requires AllDigits(whole)
    ensures DigitsValue(PlainWhole(whole) + f) == DigitsValue(whole + f)
  {
    TrimZerosSame(whole, f);
    if TrimZeros(whole) == "" {
      LeadingZero(f);
      assert "" + f == f;
    }
  }

  lemma PlainPartsSame(p: Parts)
    requires ValidParts(p)
    ensures PartsValue(PlainParts(p)) == PartsValue(p)
  {
    var q := PlainParts(p);
    if q.fraction == p.fraction { SameFraction(p, q); } else { ZeroFraction(p, q); }
  }

  lemma SameFraction(p: Parts, q: Parts)
    requires ValidParts(p) && q == PlainParts(p) && q.fraction == p.fraction
    ensures PartsValue(q) == PartsValue(p)
  {
    PlainWholeSame(p.whole, p.fraction);
  }

  lemma ZeroFraction(p: Parts, q: Parts)
    requires ValidParts(p) && q == PlainParts(p) && q.fraction != p.fraction
    ensures PartsValue(q) == PartsValue(p)
  {
    NewZero(p, q);
    PlainWholeSame(p.whole, "");
    NewFraction(q.whole, ExponentValue(p.exponent));
  }

  lemma NewZero(p: Parts, q: Parts)
    requires ValidParts(p) && q == PlainParts(p) && q.fraction != p.fraction
    ensures p.fraction == "" && q.fraction == "0" && q.whole == PlainWhole(p.whole) && q.exponent == p.exponent
  {}

  // --------------------------------------------- what the rule makes of them

  lemma DecimalMeans(n: nat)
    ensures IsWhole(Decimal(n)) && DigitsValue(Decimal(n)) == n
  {
    DecimalReads(n);
  }

  function Signed(minus: bool, s: string): string {
    if minus then "-" + s else s
  }

  lemma BareNumber(t: string, undefined: bool)
    requires t != "" && (t[0] == '-' || IsDigit(t[0]))
    ensures ParseValue(t, false, undefined) == ParseBare(t)
  {
    NoWord(t, "undefined");
    NoWord(t, "null");
    NoWord(t, "true");
    NoWord(t, "false");
  }

  lemma NoWord(t: string, word: string)
    requires t != "" && (t[0] == '-' || IsDigit(t[0])) && word != "" && 'a' <= word[0]
    ensures t != word
  {}

  lemma NumberParses(minus: bool, w: string, f: string, e: string, undefined: bool)
    requires IsWhole(w) && IsFraction(f) && IsExponent(e)
    ensures var t := Signed(minus, w + (f + e));
            ParseValue(t, false, undefined)
            == Accepted(TypedValue(t, if f == "" && e == "" then IntegerKind else DecimalKind, false, t))
  {
    var t := Signed(minus, w + (f + e));
    SignedNumber(minus, w, f, e);
    LastOfNumber(minus, w, f, e);
    BareNumber(t, undefined);
    NumberIsBare(t, Number(minus, w, f, e));
  }

  lemma SignedNumber(minus: bool, w: string, f: string, e: string)
    requires IsWhole(w) && IsFraction(f) && IsExponent(e)
    ensures var t := Signed(minus, w + (f + e));
            NumberOf(t) == Some(Number(minus, w, f, e)) && t != "" && (t[0] == '-' || IsDigit(t[0]))
  {
    SignedText(minus, w + (f + e));
    NumberReadsBack(minus, w, f, e);
  }

  lemma NumberIsBare(t: string, c: Cst)
    requires c.Number? && NumberOf(t) == Some(c) && t != "" && IsDigit(t[|t| - 1])
    ensures ParseBare(t)
         == Accepted(TypedValue(t, if c.fraction == "" && c.exponent == "" then IntegerKind else DecimalKind, false, t))
  {
    assert t[|t| - 1..][0] == t[|t| - 1];
  }

  lemma SignedText(minus: bool, s: string)
    ensures Signed(minus, s) == (if minus then "-" else "") + s
  {}

  lemma LastOfNumber(minus: bool, w: string, f: string, e: string)
    requires IsWhole(w) && IsFraction(f) && IsExponent(e)
    ensures var t := Signed(minus, w + (f + e)); t != "" && IsDigit(t[|t| - 1])
  {
    var t := Signed(minus, w + (f + e));
    if e != "" {
      var digits := e[1..][SignLength(e[1..])..];
      assert t[|t| - 1] == e[|e| - 1] == digits[|digits| - 1];
    } else if f != "" {
      assert t[|t| - 1] == f[|f| - 1] == f[1..][|f| - 2];
    } else {
      assert t[|t| - 1] == w[|w| - 1];
    }
  }

  lemma LongParses(minus: bool, w: string, suffix: string, undefined: bool)
    requires IsWhole(w) && IsLongSuffix(suffix)
    ensures var t := Signed(minus, w + suffix);
            ParseValue(t, false, undefined) == Accepted(TypedValue(t, LongKind, false, Signed(minus, w)))
  {
    LongIsNoNumber(minus, w, suffix);
    WholeIsInteger(minus, w);
    SignedMore(minus, w, suffix);
    LongReads(Signed(minus, w), suffix, Signed(minus, w + suffix), undefined);
  }

  lemma SignedMore(minus: bool, w: string, suffix: string)
    ensures Signed(minus, w + suffix) == Signed(minus, w) + suffix
  {
    Assoc("-", w, suffix);
  }

  lemma LongReads(number: string, suffix: string, t: string, undefined: bool)
    requires IsInteger(number) && IsLongSuffix(suffix) && t == number + suffix
    requires NumberOf(t) == None && t != "" && (t[0] == '-' || IsDigit(t[0]))
    ensures ParseValue(t, false, undefined) == Accepted(TypedValue(t, LongKind, false, number))
  {
    LongText(number, suffix, t);
    LongIsBare(t);
    BareNumber(t, undefined);
  }

  lemma WholeIsInteger(minus: bool, w: string)
    requires IsWhole(w)
    ensures IsInteger(Signed(minus, w))
  {
    NumberReadsBack(minus, w, "", "");
    SignedText(minus, w);
    assert w + ("" + "") == w;
  }

  lemma LongText(number: string, suffix: string, t: string)
    requires IsInteger(number) && IsLongSuffix(suffix) && t == number + suffix
    ensures IsLong(t) && t[..|t| - 1] == number
  {
    assert t[..|t| - 1] == number && t[|t| - 1..] == suffix;
  }

  lemma LongIsBare(t: string)
    requires NumberOf(t) == None && IsLong(t)
    ensures ParseBare(t) == Accepted(TypedValue(t, LongKind, false, t[..|t| - 1]))
  {}

  lemma LongIsNoNumber(minus: bool, w: string, suffix: string)
    requires IsWhole(w) && IsLongSuffix(suffix)
    ensures var t := Signed(minus, w + suffix); NumberOf(t) == None && t != "" && (t[0] == '-' || IsDigit(t[0]))
  {
    var s := w + ("" + ("" + suffix));
    assert s == w + suffix && s[0] == w[0] && IsDigit(w[0]) && "" + s == s;
    SignedText(minus, s);
    UnsignedReads(Number(minus, w, "", ""), s, suffix);
  }

  lemma QuotedParses(t: string, undefined: bool)
    ensures var v := ParseValue(InQuotes(t), false, undefined);
            v.Accepted? && v.value.kind == StringKind && v.value.Str() == Some(t)
  {
    var q := InQuotes(t);
    assert q[1..|q| - 1] == t;
    UnquoteQuote(t);
  }

  // ----------------------------------------------------------- plain numbers

  lemma PartsAreNoHex(t: string)
    requires ReadParts(t).Some?
    ensures ReadHex(t) == None
  {
    var p := ReadParts(t).value;
    SecondOfParts(t, p.whole, p.dot + (p.fraction + (p.exponent + p.suffix)));
  }

  lemma SecondOfParts(t: string, whole: string, more: string)
    requires t == whole + more && AllDigits(whole)
    requires more != "" ==> more[0] != 'x' && more[0] != 'X' && !IsDigit(more[0])
    ensures ReadHex(t) == None
  {
    if |t| >= 2 && t[0] == '0' {
      assert whole == "" ==> t == more;
      assert |whole| == 1 ==> t[1] == more[0];
      assert |whole| >= 2 ==> t[1] in whole;
    }
  }

  lemma SignIsNoNumber(u: string)
    requires u != "" && u[0] == '-'
    ensures ReadHex(u) == None && ReadParts(u) == None
  {
    SignIsNoParts(u);
  }

  lemma SignIsNoParts(u: string)
    requires u != "" && u[0] == '-'
    ensures ReadParts(u) == None
  {
    var whole := Digits(u);
    assert whole == Read("", u);
  }

  /** A sign is at most one, and the code's two trims and the one of numberLike agree on it. */
  lemma OneSign(text: string)
    requires NumberLike(text)
    ensures var t := if text != "" && text[0] == '+' then text[1..] else text;
            var minus := t != "" && t[0] == '-';
            (if minus then t[1..] else t) == Unsigned(text) && minus == (text != "" && text[0] == '-')
  {
    var u := Unsigned(text);
    if u != "" && u[0] == '-' {
      SignIsNoNumber(u);
    }
  }

  /** The kind and the value t has as the rule reads it, when it accepts it as a number. */
  function Reading(t: string, undefined: bool): Option<Numeral> {
    var v := ParseValue(t, false, undefined);
    if v.Accepted? && Rational(t).Some? && Rational(v.value.json) == Rational(t)
    then Some(Numeral(v.value.kind, Rational(t).value)) else None
  }

  lemma SignedRational(minus: bool, t: string, p: Parts)
    requires ValidParts(p) && p.whole != "" && t == PartsText(p)
    ensures Rational(Signed(minus, t)) == Some(Negated(minus, PartsValue(p)))
  {
    PartsRead(p);
    PartsAreNoHex(t);
    assert t[0] == p.whole[0] && p.whole[0] in p.whole;
    assert Unsigned(Signed(minus, t)) == t;
  }

  lemma WholeRational(minus: bool, w: string, suffix: string)
    requires IsWhole(w) && (suffix == "" || IsLongSuffix(suffix))
    ensures Rational(Signed(minus, w + suffix)) == Some(Negated(minus, DigitsValue(w) as real))
  {
    WholeText(w, suffix);
    WholeIsParts(w, suffix);
    SignedRational(minus, w + suffix, Parts(w, "", "", "", suffix));
    WholeValue(w, suffix);
  }

  lemma WholeText(w: string, suffix: string)
    ensures PartsText(Parts(w, "", "", "", suffix)) == w + suffix
  {}

  lemma WholeIsParts(w: string, suffix: string)
    requires IsWhole(w) && (suffix == "" || IsLongSuffix(suffix))
    ensures ValidParts(Parts(w, "", "", "", suffix))
  {}

  lemma WholeValue(w: string, suffix: string)
    ensures PartsValue(Parts(w, "", "", "", suffix)) == DigitsValue(w) as real
  {
    assert w + "" == w;
    assert Pow10(0) == 1.0;
  }

  lemma IntegerRational(minus: bool, w: string)
    requires IsWhole(w)
    ensures Rational(Signed(minus, w)) == Some(Negated(minus, DigitsValue(w) as real))
  {
    var p := Parts(w, "", "", "", "");
    assert PartsText(p) == w;
    SignedRational(minus, w, p);
    WholeValue(w, "");
  }

  lemma PlainWholeReads(minus: bool, t: string, w: string, suffix: string, undefined: bool)
    requires IsWhole(w) && (suffix == "" || IsLongSuffix(suffix)) && t == w + suffix
    ensures Reading(Signed(minus, t), undefined)
         == Some(Numeral(if suffix == "" then IntegerKind else LongKind, Negated(minus, DigitsValue(w) as real)))
  {
    WholeRational(minus, w, suffix);
    if suffix == "" {
      assert w + ("" + "") == t;
      NumberParses(minus, w, "", "", undefined);
    } else {
      WholeRational(minus, w, "");
      assert w + "" == w;
      LongParses(minus, w, suffix, undefined);
    }
  }

  lemma DecimalText(p: Parts)
    requires ValidParts(p) && (p.dot == "" || p.fraction != "") && p.suffix == ""
    ensures PartsText(p) == p.whole + ((p.dot + p.fraction) + p.exponent) && IsFraction(p.dot + p.fraction)
    ensures p.dot + p.fraction == "" <==> p.dot == ""
  {
    assert p.dot == "." ==> (p.dot + p.fraction)[1..] == p.fraction;
    assert p.exponent + "" == p.exponent;
    Assoc(p.dot, p.fraction, p.exponent);
  }

  lemma PlainDecimalReads(minus: bool, t: string, p: Parts, undefined: bool)
    requires ValidParts(p) && IsWhole(p.whole) && (p.dot == "" || p.fraction != "") && p.suffix == ""
    requires t == PartsText(p)
    ensures Reading(Signed(minus, t), undefined)
         == Some(Numeral(if p.dot == "" && p.exponent == "" then IntegerKind else DecimalKind,
                         Negated(minus, PartsValue(p))))
  {
    var f := p.dot + p.fraction;
    DecimalText(p);
    NumberParses(minus, p.whole, f, p.exponent, undefined);
    SignedRational(minus, t, p);
  }

  lemma PlainPartsRead(minus: bool, t: string, p: Parts, undefined: bool)
    requires ValidParts(p) && t == PartsText(PlainParts(p))
    ensures Reading(Signed(minus, t), undefined) == Some(Numeral(PartsKind(p), Negated(minus, PartsValue(p))))
  {
    var q := PlainParts(p);
    PlainPartsSame(p);
    PlainPartsKind(p);
    if q.suffix == "" {
      PlainDecimalReads(minus, t, q, undefined);
    } else {
      WholeText(q.whole, q.suffix);
      WholeValue(q.whole, q.suffix);
      PlainWholeReads(minus, t, q.whole, q.suffix, undefined);
    }
  }

  lemma PlainPartsKind(p: Parts)
    requires ValidParts(p)
    ensures var q := PlainParts(p);
            && ValidParts(q) && IsWhole(q.whole) && (q.dot == "" || q.fraction != "")
            && (q.suffix == "" || (IsLongSuffix(q.suffix) && q == Parts(q.whole, "", "", "", q.suffix)))
            && PartsKind(p) == (if q.suffix != "" then LongKind
                                else if q.dot == "" && q.exponent == "" then IntegerKind else DecimalKind)
  {
    PlainPartsValid(p);
  }

  /** The plain form of a number-like text, without its sign. */
  function PlainUnsigned(u: string): string {
    var hex, p := ReadHex(u), ReadParts(u);
    if hex.Some? then Decimal(HexNumber(hex.value.digits)) + hex.value.suffix
    else if p.Some? then PartsText(PlainParts(p.value))
    else ""
  }

  lemma PlainNumberIs(text: string)
    requires NumberLike(text)
    ensures PlainNumber(text) == Some(Signed(text != "" && text[0] == '-', PlainUnsigned(Unsigned(text))))
  {
    OneSign(text);
    SignedText(text != "" && text[0] == '-', PlainUnsigned(Unsigned(text)));
  }

  /**
   Every number-like text has a plain form: the rule accepts it, as the kind of number the text is,
   and it is exactly the same number.
   */
  lemma PlainNumberReads(text: string, undefined: bool)
    requires NumberLike(text)
    ensures Rational(text).Some? && NumberKind(text) in {IntegerKind, LongKind, DecimalKind}
    ensures PlainNumber(text).Some?
    ensures Reading(PlainNumber(text).value, undefined) == Some(Numeral(NumberKind(text), Rational(text).value))
  {
    PlainNumberIs(text);
    var u, minus := Unsigned(text), text != "" && text[0] == '-';
    var t := PlainUnsigned(u);
    calc {
      Reading(PlainNumber(text).value, undefined);
      Reading(Signed(minus, t), undefined);
      { PlainUnsignedReads(minus, u, t, undefined); }
      Some(Numeral(UnsignedKind(u), Negated(minus, UnsignedValue(u))));
    }
  }

  lemma PlainUnsignedReads(minus: bool, u: string, t: string, undefined: bool)
    requires t == PlainUnsigned(u) && (ReadHex(u).Some? || ReadParts(u).Some?)
    ensures Reading(Signed(minus, t), undefined) == Some(Numeral(UnsignedKind(u), Negated(minus, UnsignedValue(u))))
  {
    if ReadHex(u).Some? {
      var h := ReadHex(u).value;
      DecimalMeans(HexNumber(h.digits));
      PlainWholeReads(minus, t, Decimal(HexNumber(h.digits)), h.suffix, undefined);
    } else {
      PlainPartsRead(minus, t, ReadParts(u).value, undefined);
    }
  }

  // ---------------------------------------------------------------- refusals

  lemma NoNInParts(p: Parts, c: char)
    requires ValidParts(p) && (c == 'n' || c == 'N')
    ensures c !in PartsText(p)
  {
    ExponentChars(p.exponent);
    assert c !in p.exponent + p.suffix;
    assert c !in p.fraction + (p.exponent + p.suffix);
    assert c !in p.dot + (p.fraction + (p.exponent + p.suffix));
  }

  lemma NoNInHex(u: string, c: char)
    requires ReadHex(u).Some? && (c == 'n' || c == 'N')
    ensures c !in u
  {
    var h := ReadHex(u).value;
    assert u[..2] == [u[0], u[1]];
    assert c !in h.mark && c !in h.digits && c !in h.suffix;
    assert c !in h.mark + h.digits;
  }

  /** Text with a letter n, as nan, infinity and inf have, is no number in any of the forms. */
  lemma NoNumberHasN(u: string, c: char)
    requires c in u && (c == 'n' || c == 'N')
    ensures ReadHex(u) == None && ReadParts(u) == None
  {
    if ReadParts(u).Some? {
      NoNInParts(ReadParts(u).value, c);
    }
    if ReadHex(u).Some? {
      NoNInHex(u, c);
    }
  }

  lemma ExponentChars(e: string)
    requires IsExponent(e)
    ensures 'n' !in e && 'N' !in e
  {
    if e != "" {
      var n := 1 + SignLength(e[1..]);
      assert e[1..][SignLength(e[1..])..] == e[n..];
      assert e == e[..n] + e[n..];
    }
  }

  lemma {:induction false} TrimmedInside(t: string, c: char)
    requires c in TrimSigns(t)
    ensures c in t && (c != '+' && c != '-' && t != "" ==> t[0] == c || c in t[1..])
  {
    if t != "" && (t[0] == '+' || t[0] == '-') {
      TrimmedInside(t[1..], c);
    }
  }

  lemma {:induction false} SpecialHasN(text: string)
    requires SpecialNumber(text)
    ensures 'n' in TrimSigns(text) || 'N' in TrimSigns(text)
  {
    var u := TrimSigns(text);
    var s := seq(|u|, i requires 0 <= i < |u| => Lower(u[i]));
    assert |u| == |s| && Lower(u[0]) == s[0] && Lower(u[1]) == s[1];
  }

  lemma SpecialIsNoNumber(text: string)
    requires SpecialNumber(text)
    ensures PlainNumber(text) == None && !NumberLike(text)
  {
    SpecialHasN(text);
    var c := if 'n' in TrimSigns(text) then 'n' else 'N';
    TrimmedInside(text, c);
    var t := if text != "" && text[0] == '+' then text[1..] else text;
    NoNumberHasN(Unsigned(text), c);
    assert c in t;
    NoNumberHasN(if t != "" && t[0] == '-' then t[1..] else t, c);
  }

  lemma AmbiguousIs(text: string, undefined: bool)
    requires ParseValue(text, false, undefined).Ambiguous?
    ensures ParseValue(text, false, undefined) == Ambiguous(PlainNumber(text), InQuotes(text))
    ensures NumberLike(text) || SpecialNumber(text)
  {
    BareAmbiguous(text);
    OtherAmbiguous(text);
  }

  lemma BareAmbiguous(text: string)
    requires ParseBare(text).Ambiguous?
    ensures ParseBare(text) == ParseOther(text)
  {}

  lemma OtherAmbiguous(text: string)
    requires ParseOther(text).Ambiguous?
    ensures ParseOther(text) == Ambiguous(PlainNumber(text), InQuotes(text))
    ensures NumberLike(text) || SpecialNumber(text)
  {}

  /**
   What a refusal of a number proposes is accepted: a plain form whenever the text could be a number,
   of the same kind and value, and the quoted text, which is the text.
   */
  lemma ProposalsAccepted(text: string, undefined: bool, p: Parsed)
    requires p == ParseValue(text, false, undefined) && p.Ambiguous?
    ensures p.number.Some? <==> NumberLike(text)
    ensures p.number.Some? ==>
              Rational(text).Some?
              && Reading(p.number.value, undefined) == Some(Numeral(NumberKind(text), Rational(text).value))
    ensures var q := ParseValue(p.quoted, false, undefined); q.Accepted? && q.value.Str() == Some(text)
  {
    AmbiguousIs(text, undefined);
    QuotedParses(text, undefined);
    if NumberLike(text) {
      PlainNumberReads(text, undefined);
    } else {
      SpecialIsNoNumber(text);
    }
  }

  // ---------------------------------------------------------------- its JSON

  /** What an accepted value holds is JSON, so its strings can be expanded; only undefined has none. */
  lemma ValueIsJson(text: string, empty: bool, undefined: bool)
    requires ParseValue(text, empty, undefined).Accepted?
    ensures var v := ParseValue(text, empty, undefined).value;
            if v.undefined then v.json == "" else ReadText(v.json).Some?
  {
    var v := ParseValue(text, empty, undefined).value;
    if Quoted(text) {
      QuoteIsJson(text[1..|text| - 1]);
    } else if text == "undefined" {
    } else if text == "null" || text == "true" || text == "false" {
      CstIsJson(Word(v.json), v.json);
    } else {
      assert ParseValue(text, empty, undefined) == ParseBare(text);
      BareIsJson(text, v);
    }
  }

  lemma BareIsJson(text: string, v: TypedValue)
    requires ParseBare(text) == Accepted(v)
    ensures !v.undefined && ReadText(v.json).Some?
  {
    if IsInteger(text) || IsLong(text) || IsDecimal(text) {
      NumberIsJson(v.json);
    } else {
      OtherIsJson(text, v);
    }
  }

  lemma NumberIsJson(t: string)
    requires NumberOf(t).Some?
    ensures ReadText(t).Some?
  {
    NumberSound(t);
    CstIsJson(NumberOf(t).value, t);
  }

  lemma OtherIsJson(text: string, v: TypedValue)
    requires ParseOther(text) == Accepted(v)
    ensures !v.undefined && ReadText(v.json).Some?
  {
    QuoteIsJson(text);
  }

  lemma CstIsJson(c: Cst, t: string)
    requires Valid(c) && t == Print(c, "")
    ensures ReadText(t).Some?
  {
    assert "" + "" == "" && "" + t == t;
    TextReads(t, Item("", c, ""));
  }

  lemma QuoteIsJson(s: string)
    ensures ReadText(Quote(s)).Some?
  {
    QuoteUnitsMean(s);
    CstIsJson(Str(QuoteUnits(s)), Quote(s));
  }

  /** What the rule reads, once the references of its strings are expanded. */
  method ExpandValue(v: TypedValue, expand: Expansion) returns (r: Option<TypedValue>)
    requires if v.undefined then v.json == "" else ReadText(v.json).Some?
    ensures r.Some? ==> r.value.text == v.text && r.value.kind == v.kind && r.value.undefined == v.undefined
    ensures v.undefined ==> r == Some(v)
    ensures !v.undefined ==> Expands(ReadText(v.json).value, if r == None then None else Some(r.value.json), expand)
  {
    if !v.undefined {
      assert v.json != "";
    }
    var json := Expand(v.json, expand);
    return if json == None then None else Some(v.(json := json.value));
  }

  // -------------------------------------------------------- text, by the rule

  datatype TextCell = IsText(s: string) | NoText | TextEmpty | TextRefused(quoted: string)

  function ParseText(text: string, empty: bool, undefined: bool): TextCell {
    if empty then TextEmpty
    else if Quoted(text) then IsText(text[1..|text| - 1])
    else if undefined && text == "undefined" then NoText
    else
      var v := ParseValue(text, false, true);
      if v.Accepted? && v.value.kind == StringKind then IsText(text) else TextRefused(InQuotes(text))
  }

  /** A cell is text exactly when the rule reads it as a string, and then it is that string. */
  lemma TextIsStrings(text: string, undefined: bool, s: string)
    ensures ParseText(text, false, undefined) == IsText(s)
       <==> var v := ParseValue(text, false, undefined); v.Accepted? && v.value.Str() == Some(s)
  {
    if Quoted(text) {
      UnquoteQuote(text[1..|text| - 1]);
    } else if text == "undefined" {
    } else {
      assert ParseValue(text, false, undefined) == ParseValue(text, false, true);
      UnquotedString(text);
    }
  }

  lemma UnquotedString(text: string)
    requires !Quoted(text) && text != "undefined"
    ensures var v := ParseValue(text, false, true);
            v.Accepted? ==> v.value.Str() == if v.value.kind == StringKind then Some(text) else None
  {
    UnquoteQuote(text);
    var v := ParseValue(text, false, true);
    if v.Accepted? && v.value.kind == StringKind {
      assert v == ParseBare(text) == ParseOther(text);
    }
  }

  /** A refused cell's proposal is the cell's own text. */
  lemma TextProposalRight(text: string, undefined: bool, p: TextCell)
    requires p == ParseText(text, false, undefined) && p.TextRefused?
    ensures ParseText(p.quoted, false, undefined) == IsText(text)
  {
    var q := InQuotes(text);
    assert q[1..|q| - 1] == text;
  }

  // ---------------------------------------------------------------- the code

  /** The plain form, made by rewriting the parts of the text one after the other. */
  method MakePlainNumber(text: string) returns (n: Option<string>)
    ensures n == PlainNumber(text)
  {
    var t := text;
    if t != "" && t[0] == '+' {
      t := t[1..];
    }
    var sign := "";
    if t != "" && t[0] == '-' {
      sign, t := "-", t[1..];
    }
    var hex := ReadHex(t);
    if hex.Some? {
      return Some(sign + (Decimal(HexNumber(hex.value.digits)) + hex.value.suffix));
    }
    var m := ReadParts(t);
    if m == None {
      return None;
    }
    var Parts(whole, dot, fraction, exponent, suffix) := m.value;
    whole := TrimZeros(whole);
    if whole == "" {
      whole := "0";
    }
    if dot != "" && fraction == "" {
      fraction := "0";
    }
    var isInteger := dot == "" && exponent == "";
    if suffix == "l" || suffix == "L" {
      if !isInteger {
        suffix := "";
      }
    } else if suffix != "" {
      suffix := "";
      if isInteger {
        dot, fraction := ".", "0";
      }
    }
    assert PlainParts(m.value) == Parts(whole, dot, fraction, exponent, suffix);
    return Some(sign + (whole + (dot + (fraction + (exponent + suffix)))));
  }
}
