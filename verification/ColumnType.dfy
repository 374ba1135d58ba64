/**
 The check of internal/columntype: a table's cell against the column whose rows it selects. A
 refusal proposes the value to write, or says only what the cell is not.
 */
module ColumnType {
  import opened Wrappers
  import opened Numbers
  import opened Json
  import opened ValueExpand
  import opened ValueRule

  datatype ColumnKind =
    | OtherColumn
    | IntegerColumn
    | DecimalColumn
    | BooleanColumn
    | TextColumn
    | IntegerOrBooleanColumn

  datatype Class = Unchecked | StringCell | IntegerCell | DecimalCell | BooleanCell

  datatype Advice = Right | Write(form: string) | NotOne

  const MAX_WRITTEN := 40

  function ClassOf(v: TypedValue): Class {
    if v.Str().Some? then StringCell
    else if v.undefined || v.kind == NullKind || (v.json != "" && (v.json[0] == '{' || v.json[0] == '[')) then Unchecked
    else if v.json == "true" || v.json == "false" then BooleanCell
    else if v.kind == DecimalKind then DecimalCell
    else IntegerCell
  }

  /** The value that what is between a string's quotes would be. */
  function ReadString(v: TypedValue): Option<TypedValue> {
    var s := v.Str();
    var inner := ParseValue(if s.Some? then s.value else "", false, false);
    if inner.Accepted? then Some(inner.value) else None
  }

  function IntegerText(n: int): string {
    Signed(n < 0, Decimal(if n < 0 then -n else n))
  }

  /** The integer equal to a decimal, if it has one that is short enough to write. */
  function WholeNumber(text: string): Option<string> {
    var r := Rational(text);
    if r == None || r.value.Floor as real != r.value then None
    else
      var s := IntegerText(r.value.Floor);
      if |s| <= MAX_WRITTEN then Some(s) else None
  }

  function WholeAdvice(text: string): Advice {
    var whole := WholeNumber(text);
    if whole.Some? then Write(whole.value) else NotOne
  }

  /** A value by its class and its JSON: all that the checks look at. */
  datatype Cell = Cell(class_: Class, json: string)

  function CellOf(v: TypedValue): Cell {
    Cell(ClassOf(v), v.json)
  }

  /** What an integer column takes for a cell; inner is what its text reads as, when it is a string. */
  function IntegerAdvice(kind: ColumnKind, cell: Cell, inner: Option<Cell>): Advice {
    match cell.class_
    case IntegerCell => Right
    case BooleanCell => if kind == IntegerOrBooleanColumn then Right else NotOne
    case DecimalCell => WholeAdvice(cell.json)
    case StringCell =>
      if inner == None then NotOne
      else
        (match inner.value.class_
         case IntegerCell => Write(inner.value.json)
         case DecimalCell => WholeAdvice(inner.value.json)
         case BooleanCell => if kind == IntegerOrBooleanColumn then Write(inner.value.json) else NotOne
         case _ => NotOne)
    case Unchecked => NotOne
  }

  function DecimalAdvice(cell: Cell, inner: Option<Cell>): Advice {
    match cell.class_
    case DecimalCell => Right
    case IntegerCell => Write(cell.json + ".0")
    case StringCell =>
      if inner == None then NotOne
      else
        (match inner.value.class_
         case DecimalCell => Write(inner.value.json)
         case IntegerCell => Write(inner.value.json + ".0")
         case _ => NotOne)
    case _ => NotOne
  }

  function BooleanAdvice(cell: Cell, inner: Option<Cell>): Advice {
    match cell.class_
    case BooleanCell => Right
    case IntegerCell => if cell.json == "1" then Write("true") else if cell.json == "0" then Write("false") else NotOne
    case StringCell => if inner.Some? && inner.value.class_ == BooleanCell then Write(inner.value.json) else NotOne
    case _ => NotOne
  }

  function AdviceBy(kind: ColumnKind, cell: Cell, inner: Option<Cell>, text: string): Advice {
    if cell.class_ == Unchecked then Right
    else
      match kind
      case IntegerColumn => IntegerAdvice(kind, cell, inner)
      case IntegerOrBooleanColumn => IntegerAdvice(kind, cell, inner)
      case DecimalColumn => DecimalAdvice(cell, inner)
      case BooleanColumn => BooleanAdvice(cell, inner)
      case _ => if cell.class_ == StringCell then Right else Write(InQuotes(text))
  }

  function Inner(v: TypedValue): Option<Cell> {
    match ReadString(v) case None => None case Some(m) => Some(CellOf(m))
  }

  /** What a column of this kind takes for v. */
  function WriteFor(kind: ColumnKind, v: TypedValue): Advice {
    AdviceBy(kind, CellOf(v), Inner(v), v.text)
  }

  // ------------------------------------------------------ what a cell denotes

  /** v has JSON of its kind, as everything the rule reads has. */
  predicate Typed(v: TypedValue) {
    v.kind == NullKind
    || (!v.undefined
        && match v.kind
           case StringKind => Unquote(v.json).Some?
           case BooleanKind => v.json == "true" || v.json == "false"
           case DecimalKind => IsDecimal(v.json)
           case ObjectKind => v.json != "" && v.json[0] == '{'
           case ArrayKind => v.json != "" && v.json[0] == '['
           case _ => IsInteger(v.json))
  }

  /** The value a cell's author meant: of a string, what its text reads as. */
  function Meant(v: TypedValue): TypedValue {
    if ClassOf(v) == StringCell && ReadString(v).Some? then ReadString(v).value else v
  }

  /** Whatever the rule reads is so typed. */
  lemma ParsedTyped(text: string, empty: bool, undefined: bool, v: TypedValue)
    requires ParseValue(text, empty, undefined) == Accepted(v)
    ensures Typed(v)
  {
    if Quoted(text) {
      UnquoteQuote(text[1..|text| - 1]);
    } else if text == "undefined" || text == "null" || text == "true" || text == "false" {
    } else {
      BareTyped(text, v);
    }
  }

  lemma BareTyped(text: string, v: TypedValue)
    requires ParseBare(text) == Accepted(v)
    ensures Typed(v)
  {
    if !IsInteger(text) && !IsLong(text) && !IsDecimal(text) { OtherTyped(text, v); }
  }

  lemma OtherTyped(text: string, v: TypedValue)
    requires ParseOther(text) == Accepted(v)
    ensures Typed(v)
  {
    UnquoteQuote(text);
  }

  /** A value's class is that of its JSON. */
  lemma KindOfClass(v: TypedValue)
    requires Typed(v)
    ensures v.kind == StringKind <==> ClassOf(v) == StringCell
    ensures ClassOf(v) == IntegerCell ==> IsInteger(v.json)
    ensures ClassOf(v) == DecimalCell ==> IsDecimal(v.json)
    ensures ClassOf(v) == BooleanCell ==> v.json == "true" || v.json == "false"
  {
    if v.kind in {IntegerKind, LongKind, DecimalKind} { NumberClass(v); }
  }

  lemma NumberStart(t: string)
    requires NumberOf(t).Some?
    ensures t != "" && (t[0] == '-' || IsDigit(t[0]))
  {}

  lemma NumberClass(v: TypedValue)
    requires v.kind in {IntegerKind, LongKind, DecimalKind} && !v.undefined && NumberOf(v.json).Some?
    ensures ClassOf(v) == if v.kind == DecimalKind then DecimalCell else IntegerCell
  {
    NumberStart(v.json);
    StartClass(v, v.json[0]);
  }

  lemma StartClass(v: TypedValue, c: char)
    requires v.kind in {IntegerKind, LongKind, DecimalKind} && !v.undefined
    requires v.json != "" && v.json[0] == c && (c == '-' || IsDigit(c))
    ensures ClassOf(v) == if v.kind == DecimalKind then DecimalCell else IntegerCell
  {
  }

  lemma NumberIsText(t: string)
    requires NumberOf(t).Some?
    ensures var c := NumberOf(t).value;
            && IsWhole(c.whole) && IsFraction(c.fraction) && IsExponent(c.exponent)
            && t == Signed(c.minus, c.whole + (c.fraction + c.exponent))
  {
    NumberSound(t);
    var c := NumberOf(t).value;
    assert c.exponent + "" == c.exponent;
    SignedText(c.minus, c.whole + (c.fraction + c.exponent));
  }

  lemma NumberCell(t: string, undefined: bool)
    requires NumberOf(t).Some?
    ensures ParseValue(t, false, undefined)
         == Accepted(TypedValue(t, if IsInteger(t) then IntegerKind else DecimalKind, false, t))
  {
    NumberIsText(t);
    var c := NumberOf(t).value;
    LastOfNumber(c.minus, c.whole, c.fraction, c.exponent);
    NumberStart(t);
    NumberIsBare(t, c);
    BareNumber(t, undefined);
  }

  lemma IntegerCellText(n: int)
    ensures IsInteger(IntegerText(n)) && Rational(IntegerText(n)) == Some(n as real)
  {
    var m: nat := if n < 0 then -n else n;
    DecimalMeans(m);
    WholeTextReads(n < 0, Decimal(m), IntegerText(n));
    IntegerRational(n < 0, Decimal(m));
    NegatedInteger(n < 0, m, n);
  }

  lemma NegatedInteger(minus: bool, m: nat, n: int)
    requires n == if minus then 0 - m else m
    ensures Negated(minus, m as real) == n as real
  {
  }

  lemma WholeTextReads(minus: bool, w: string, t: string)
    requires IsWhole(w) && t == Signed(minus, w)
    ensures IsInteger(t)
  {
    assert w + "" == w;
    TextNumber(minus, w, "", t);
  }

  lemma TextNumber(minus: bool, w: string, f: string, t: string)
    requires IsWhole(w) && IsFraction(f) && t == Signed(minus, w + f)
    ensures NumberOf(t) == Some(Number(minus, w, f, ""))
  {
    assert w + (f + "") == w + f;
    SignedNumber(minus, w, f, "");
  }

  lemma WithFraction(t: string)
    requires IsInteger(t)
    ensures IsDecimal(t + ".0") && Rational(t + ".0") == Rational(t) && Rational(t).Some?
  {
    NumberIsText(t);
    var c := NumberOf(t).value;
    assert c.whole + ("" + "") == c.whole;
    FractionSame(c.minus, c.whole, t, t + ".0");
  }

  lemma FractionSame(minus: bool, w: string, t: string, d: string)
    requires IsWhole(w) && t == Signed(minus, w) && d == t + ".0"
    ensures IsDecimal(d) && Rational(d) == Rational(t) && Rational(t).Some?
  {
    assert ".0"[1..] == "0" && d == Signed(minus, w + ".0");
    TextNumber(minus, w, ".0", d);
    var p := Parts(w, ".", "0", "", "");
    assert PartsText(p) == w + ".0";
    SignedRational(minus, w + ".0", p);
    IntegerRational(minus, w);
    PointZero(w);
  }

  lemma PointZero(w: string)
    ensures PartsValue(Parts(w, ".", "0", "", "")) == DigitsValue(w) as real
  {
    NewFraction(w, 0);
    assert w + "" == w && Scaled(DigitsValue(w), 0) == DigitsValue(w) as real;
  }

  // ---------------------------------------------------------------- advice

  /** A proposed number: the rule reads it as an integer or a decimal of this value. */
  predicate Proposes(a: Advice, integer: bool, value: Option<real>) {
    a.Write? ==> NumberOf(a.form).Some? && IsInteger(a.form) == integer && Rational(a.form) == value
  }

  lemma WholeProposes(t: string)
    ensures Proposes(WholeAdvice(t), true, Rational(t))
  {
    if WholeAdvice(t).Write? {
      IntegerCellText(Rational(t).value.Floor);
    }
  }

  /** What a column of numbers or of booleans takes for a cell, by what was meant by it. */
  function Advise(kind: ColumnKind, cell: Class, meant: Class, json: string): Advice {
    if cell == Unchecked then Right
    else if kind == BooleanColumn then
      if meant == BooleanCell then (if cell == BooleanCell then Right else Write(json))
      else if cell == IntegerCell && json == "1" then Write("true")
      else if cell == IntegerCell && json == "0" then Write("false")
      else NotOne
    else if kind == DecimalColumn then
      if meant == DecimalCell then (if cell == DecimalCell then Right else Write(json))
      else if meant == IntegerCell then Write(json + ".0")
      else NotOne
    else if meant == IntegerCell || (meant == BooleanCell && kind == IntegerOrBooleanColumn) then
      if cell == StringCell then Write(json) else Right
    else if meant == DecimalCell then WholeAdvice(json)
    else NotOne
  }

  lemma AdviceIs(kind: ColumnKind, v: TypedValue)
    requires kind != TextColumn && kind != OtherColumn
    ensures WriteFor(kind, v) == Advise(kind, ClassOf(v), ClassOf(Meant(v)), Meant(v).json)
  {
    AdviceByIs(kind, CellOf(v), Inner(v), v.text);
  }

  lemma AdviceByIs(kind: ColumnKind, cell: Cell, inner: Option<Cell>, text: string)
    requires kind != TextColumn && kind != OtherColumn
    ensures var m := if cell.class_ == StringCell && inner.Some? then inner.value else cell;
      AdviceBy(kind, cell, inner, text) == Advise(kind, cell.class_, m.class_, m.json)
  {
  }

  /** What a column of numbers writes, by what was meant. */
  lemma AdviseForm(kind: ColumnKind, cell: Class, meant: Class, json: string, a: Advice)
    requires kind in {IntegerColumn, IntegerOrBooleanColumn, DecimalColumn}
    requires a == Advise(kind, cell, meant, json) && a.Write?
    ensures meant in {IntegerCell, DecimalCell, BooleanCell}
    ensures meant == IntegerCell ==> a == Write(if kind == DecimalColumn then json + ".0" else json)
    ensures meant == DecimalCell ==> a == if kind == DecimalColumn then Write(json) else WholeAdvice(json)
    ensures meant == BooleanCell ==> kind == IntegerOrBooleanColumn && a == Write(json)
  {
  }

  lemma AdviseExact(kind: ColumnKind, cell: Class, meant: Class, json: string, a: Advice)
    requires kind in {IntegerColumn, IntegerOrBooleanColumn, DecimalColumn}
    requires a == Advise(kind, cell, meant, json) && a.Write?
    requires meant == IntegerCell ==> IsInteger(json)
    requires meant == DecimalCell ==> IsDecimal(json)
    ensures if meant == BooleanCell then kind == IntegerOrBooleanColumn && a.form == json
            else Proposes(a, kind != DecimalColumn, Rational(json)) && Rational(a.form).Some?
  {
    AdviseForm(kind, cell, meant, json, a);
    if meant == IntegerCell {
      if kind == DecimalColumn { FractionExact(json, a); } else { SameExact(json, a, true); }
    } else if meant == DecimalCell {
      if kind == DecimalColumn { SameExact(json, a, false); } else { WholeExact(json, a); }
    }
  }

  lemma FractionExact(json: string, a: Advice)
    requires IsInteger(json) && a == Write(json + ".0")
    ensures Proposes(a, false, Rational(json)) && Rational(a.form).Some?
  {
    WithFraction(json);
  }

  lemma SameExact(json: string, a: Advice, integer: bool)
    requires NumberOf(json).Some? && IsInteger(json) == integer && a == Write(json)
    ensures Proposes(a, integer, Rational(json)) && Rational(a.form).Some?
  {
    NumberHasValue(json);
  }

  lemma WholeExact(json: string, a: Advice)
    requires NumberOf(json).Some? && a == WholeAdvice(json) && a.Write?
    ensures Proposes(a, true, Rational(json)) && Rational(a.form).Some?
  {
    WholeProposes(json);
    NumberHasValue(json);
  }

  /** In an integer or a decimal column the proposal is exactly the number the cell, or its text, denotes. */
  lemma NumberAdviceExact(kind: ColumnKind, v: TypedValue)
    requires Typed(v) && kind in {IntegerColumn, IntegerOrBooleanColumn, DecimalColumn}
    ensures var a := WriteFor(kind, v);
            a.Write? ==>
              if ClassOf(Meant(v)) == BooleanCell then kind == IntegerOrBooleanColumn && a.form == Meant(v).json
              else Proposes(a, kind != DecimalColumn, Rational(Meant(v).json)) && Rational(a.form).Some?
  {
    MeantTyped(v);
    KindOfClass(Meant(v));
    AdviceIs(kind, v);
    if WriteFor(kind, v).Write? {
      AdviseExact(kind, ClassOf(v), ClassOf(Meant(v)), Meant(v).json, WriteFor(kind, v));
    }
  }

  lemma NumberHasValue(t: string)
    requires NumberOf(t).Some?
    ensures Rational(t).Some?
  {
    NumberIsText(t);
    var c := NumberOf(t).value;
    var f := if c.fraction == "" then "" else c.fraction[1..];
    NumberPartsValue(c, f, c.whole + (c.fraction + c.exponent));
  }

  lemma NumberPartsValue(c: Cst, f: string, t: string)
    requires c.Number? && Valid(c) && t == c.whole + (c.fraction + c.exponent)
    requires f == if c.fraction == "" then "" else c.fraction[1..]
    ensures Rational(Signed(c.minus, t)).Some?
  {
    var p := Parts(c.whole, if c.fraction == "" then "" else ".", f, c.exponent, "");
    PartsOfNumber(c, p);
    SignedRational(c.minus, t, p);
  }

  lemma PartsOfNumber(c: Cst, p: Parts)
    requires c.Number? && Valid(c)
    requires var digits := if c.fraction == "" then "" else c.fraction[1..];
      p == Parts(c.whole, if c.fraction == "" then "" else ".", digits, c.exponent, "")
    ensures ValidParts(p) && p.whole != "" && PartsText(p) == c.whole + (c.fraction + c.exponent)
  {
    assert c.fraction == p.dot + p.fraction && c.exponent + "" == c.exponent;
  }

  lemma MeantTyped(v: TypedValue)
    requires Typed(v)
    ensures Typed(Meant(v))
  {
    if ReadString(v).Some? {
      ParsedTyped(if v.Str().Some? then v.Str().value else "", false, false, ReadString(v).value);
    }
  }

  /** A cell of the column's own class is right. */
  lemma RightBy(kind: ColumnKind, cell: Cell, inner: Option<Cell>, text: string)
    requires
      match cell.class_
      case IntegerCell => kind == IntegerColumn || kind == IntegerOrBooleanColumn
      case DecimalCell => kind == DecimalColumn
      case BooleanCell => kind == BooleanColumn || kind == IntegerOrBooleanColumn
      case StringCell => kind == TextColumn || kind == OtherColumn
      case Unchecked => true
    ensures AdviceBy(kind, cell, inner, text) == Right
  {
  }

  lemma StringRight(kind: ColumnKind, v: TypedValue)
    requires (kind == TextColumn || kind == OtherColumn) && v.Str().Some?
    ensures WriteFor(kind, v) == Right
  {
    RightBy(kind, CellOf(v), Inner(v), v.text);
  }

  lemma NumberRight(kind: ColumnKind, v: TypedValue)
    requires v.kind in {IntegerKind, DecimalKind} && !v.undefined && NumberOf(v.json).Some?
    requires if v.kind == DecimalKind then kind == DecimalColumn else kind in {IntegerColumn, IntegerOrBooleanColumn}
    ensures WriteFor(kind, v) == Right
  {
    NumberClass(v);
    RightBy(kind, CellOf(v), Inner(v), v.text);
  }

  lemma BooleanRight(kind: ColumnKind, form: string, undefined: bool)
    requires (kind == BooleanColumn || kind == IntegerOrBooleanColumn) && (form == "true" || form == "false")
    ensures var p := ParseValue(form, false, undefined); p.Accepted? && WriteFor(kind, p.value) == Right
  {
    var v := ParseValue(form, false, undefined).value;
    RightBy(kind, CellOf(v), Inner(v), v.text);
  }

  /** Whatever value a refusal proposes, the rule accepts it and so does the same column. */
  lemma AdviceAccepted(kind: ColumnKind, v: TypedValue, undefined: bool)
    requires Typed(v) && WriteFor(kind, v).Write?
    ensures var p := ParseValue(WriteFor(kind, v).form, false, undefined);
            p.Accepted? && WriteFor(kind, p.value) == Right
  {
    FormAccepted(kind, v, WriteFor(kind, v).form, undefined);
  }

  lemma FormAccepted(kind: ColumnKind, v: TypedValue, form: string, undefined: bool)
    requires Typed(v) && WriteFor(kind, v) == Write(form)
    ensures var p := ParseValue(form, false, undefined); p.Accepted? && WriteFor(kind, p.value) == Right
  {
    if kind == TextColumn || kind == OtherColumn {
      QuotedParses(v.text, undefined);
      StringRight(kind, ParseValue(InQuotes(v.text), false, undefined).value);
    } else if form == "true" || form == "false" {
      BooleanForm(kind, v, form);
      BooleanRight(kind, form, undefined);
    } else {
      if kind == BooleanColumn {
        BooleanProposal(v, form);
      }
      NumberForm(kind, v, form, undefined);
    }
  }

  lemma NumberForm(kind: ColumnKind, v: TypedValue, form: string, undefined: bool)
    requires Typed(v) && kind in {IntegerColumn, IntegerOrBooleanColumn, DecimalColumn}
    requires WriteFor(kind, v) == Write(form) && form != "true" && form != "false"
    ensures var p := ParseValue(form, false, undefined); p.Accepted? && WriteFor(kind, p.value) == Right
  {
    NumberAdviceExact(kind, v);
    if ClassOf(Meant(v)) == BooleanCell {
      BooleanMeant(v);
    } else {
      NumberCell(form, undefined);
      NumberRight(kind, ParseValue(form, false, undefined).value);
    }
  }

  lemma BooleanMeant(v: TypedValue)
    requires Typed(v) && ClassOf(Meant(v)) == BooleanCell
    ensures Meant(v).json == "true" || Meant(v).json == "false"
  {
    MeantTyped(v);
    KindOfClass(Meant(v));
  }

  lemma BooleanProposal(v: TypedValue, form: string)
    requires Typed(v) && WriteFor(BooleanColumn, v) == Write(form)
    ensures form == "true" || form == "false"
  {
    MeantTyped(v);
    KindOfClass(Meant(v));
    AdviceIs(BooleanColumn, v);
  }

  lemma BooleanForm(kind: ColumnKind, v: TypedValue, form: string)
    requires Typed(v) && WriteFor(kind, v) == Write(form) && (form == "true" || form == "false")
    requires kind != TextColumn && kind != OtherColumn
    ensures kind != IntegerColumn && kind != DecimalColumn
  {
    if kind != BooleanColumn {
      NumberAdviceExact(kind, v);
      if NumberOf(form).Some? {
        NumberStart(form);
      }
    }
  }
}
