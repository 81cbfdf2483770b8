/** One query, two engines: the in-memory matcher of live tail, and the SQL
    that search runs, under SQLite's three-valued logic. */
module Query {
  import opened Model
  import opened Glob
  import opened Strings
  import opened Fts
  import Seqs

  datatype Field = Level | Service | Source | Message | Raw | Attr(key: string)

  datatype Op = Eq | Neq | Gt | Gte | Lt | Lte | Wild | Exists | In | Regex

  datatype Filter = Filter(field: Field, op: Op, value: string, values: seq<string>)

  /** Times are nanoseconds; no bound is the zero time. */
  datatype Query = Query(terms: seq<string>, filters: seq<Filter>, from: Option<int>, to: Option<int>)

  /** What both engines take from their libraries: strconv.ParseFloat, SQLite's
      CAST of text to REAL, and regexp (None for a pattern that does not
      compile). */
  datatype Library = Library(
    parse: string -> Option<real>,
    cast: string -> real,
    regex: (string, string) -> Option<bool>)
  {
    ghost predicate Lawful() {
      && parse("1") == Some(1.0)
      && parse("0") == Some(0.0)
      && parse("") == None
      && (forall v :: parse(Lower(v)) == parse(v))
    }
  }

  ghost const DIGITS: Library :=
    Library(v => if v == "1" then Some(1.0) else if v == "0" then Some(0.0) else None, _ => 0.0, (_, _) => None)

  lemma DigitsLawful()
    ensures DIGITS.Lawful()
  {
    forall v ensures DIGITS.parse(Lower(v)) == DIGITS.parse(v) {
      if |v| == 1 {
        assert Lower(v) == [Fold(v[0])];
        assert v == [v[0]];
      }
    }
  }

  type Lib = lib: Library | lib.Lawful() ghost witness (DigitsLawful(); DIGITS)

  predicate Ordered(op: Op, below: bool, same: bool) {
    match op
    case Gt => !below && !same
    case Gte => !below
    case Lt => below
    case Lte => below || same
    case _ => same
  }

  predicate ByNumber(op: Op, a: real, b: real) {
    Ordered(op, a < b, a == b)
  }

  predicate ByText(op: Op, a: string, b: string) {
    Ordered(op, Less(a, b), a == b)
  }

  predicate Compares(op: Op) {
    op.Gt? || op.Gte? || op.Lt? || op.Lte?
  }

  // ----- the matcher ---------------------------------------------------------------

  /** An attribute as the matcher compares it: a boolean as 1 or 0. */
  function CompareString(v: Value): string {
    match v
    case Bool(b) => if b then "1" else "0"
    case _ => Stringify(v)
  }

  function Actual(f: Filter, e: LogEvent): Option<string> {
    match f.field
    case Level => Some(e.level)
    case Service => Some(e.service)
    case Source => Some(e.source)
    case Message => Some(e.message)
    case Raw => Some(e.raw)
    case Attr(key) => if key in e.attributes then Some(CompareString(e.attributes[key])) else None
  }

  function Norm(f: Filter, v: string): string {
    if f.field.Level? then Lower(v) else v
  }

  predicate BoolEqual(actual: string, want: string) {
    match Lower(want)
    case "true" => Lower(actual) == "true" || Lower(actual) == "1"
    case "false" => Lower(actual) == "false" || Lower(actual) == "0"
    case _ => false
  }

  predicate CompareMatch(lib: Lib, op: Op, actual: string, want: string) {
    match lib.parse(want)
    case Some(n) => ByNumber(op, lib.parse(actual).UnwrapOr(0.0), n)
    case None => ByText(op, actual, want)
  }

  predicate FilterMatches(lib: Lib, f: Filter, e: LogEvent) {
    var want := Norm(f, f.value);
    match Actual(f, e)
    case None => f.op.Neq?
    case Some(actual) =>
      match f.op
      case Exists => f.field.Attr? || actual != ""
      case Neq => !BoolEqual(actual, want) && actual != want
      case Eq => BoolEqual(actual, want) || actual == want
      case In => exists v :: v in f.values && actual == Norm(f, v)
      case Wild => GlobMatch(f.value, actual)
      case Regex => lib.regex(f.value, actual) == Some(true)
      case _ => CompareMatch(lib, f.op, actual, want)
  }

  // ----- SQL -------------------------------------------------------------------------

  datatype Datum =
    | SqlNull
    | SqlInt(i: int)
    | SqlReal(r: real)
    | SqlNumber(value: real, text: string)   // a JSON number, and what it casts to
    | SqlText(s: string)

  datatype Expr =
    | Timestamp
    | Id
    | Column(field: Field)
    | Extract(path: string)    // json_extract(logs.attributes, path)
    | JsonType(path: string)   // json_type(logs.attributes, path)
    | AsText(e: Expr)
    | AsReal(e: Expr)
    | LowerOf(e: Expr)
    | Arg(d: Datum)

  datatype Cond =
    | Compare(op: Op, l: Expr, r: Expr)
    | Member(e: Expr, list: seq<Expr>)
    | IsNull(e: Expr)
    | LikeEscape(e: Expr, pattern: string)
    | Regexp(e: Expr, pattern: string)
    | FtsMatch(expr: string)
    | Not(c: Cond)
    | And(c: Cond, d: Cond)
    | Or(c: Cond, d: Cond)

  datatype Truth = True | False | Unknown

  function Decided(b: bool): Truth {
    if b then True else False
  }

  /** A row of logs, holding the event, joined with the text of its full-text row. */
  datatype Row = Row(event: LogEvent, text: string)

  /** The JSON path of an attribute key: $."key", its quotes doubled. */
  function JsonPath(key: string): string {
    "$.\"" + Doubled(key) + "\""
  }

  /** SQLite's reading of $."label": the label ends at the next quote, and
      nothing may follow it. */
  function ReadPath(path: string): Option<string> {
    if |path| >= 4 && path[..3] == "$.\"" && path[|path| - 1] == '"' && '"' !in path[3..|path| - 1]
    then Some(path[3..|path| - 1])
    else None
  }

  function Lookup(row: Row, path: string): Option<Value> {
    match ReadPath(path)
    case Some(key) => if key in row.event.attributes then Some(row.event.attributes[key]) else None
    case None => None
  }

  /** json_extract has no boolean: it yields 1 or 0. */
  function ExtractValue(v: Value): Datum {
    match v
    case Null => SqlNull
    case Bool(b) => if b then SqlNumber(1.0, "1") else SqlNumber(0.0, "0")
    case Str(s) => SqlText(s)
    case Num(value, _, cast) => SqlNumber(value, cast)
  }

  function TypeName(v: Value): string {
    match v
    case Null => "null"
    case Bool(b) => if b then "true" else "false"
    case Str(_) => "text"
    case Num(value, _, _) => if value == value.Floor as real then "integer" else "real"
  }

  function CastText(d: Datum): Datum {
    match d
    case SqlNumber(_, text) => SqlText(text)
    case _ => d
  }

  function CastReal(lib: Lib, d: Datum): Datum {
    match d
    case SqlNumber(value, _) => SqlReal(value)
    case SqlText(s) => SqlReal(lib.cast(s))
    case SqlInt(i) => SqlReal(i as real)
    case _ => d
  }

  function Eval(lib: Lib, row: Row, expr: Expr): Datum {
    match expr
    case Timestamp => SqlInt(row.event.timestamp)
    case Id => SqlText(row.event.id)
    case Column(Level) => SqlText(row.event.level)
    case Column(Service) => SqlText(row.event.service)
    case Column(Source) => SqlText(row.event.source)
    case Column(Message) => SqlText(row.event.message)
    case Column(Raw) => SqlText(row.event.raw)
    case Column(Attr(_)) => SqlNull
    case Extract(path) =>
      (match Lookup(row, path) case Some(v) => ExtractValue(v) case None => SqlNull)
    case JsonType(path) =>
      (match Lookup(row, path) case Some(v) => SqlText(TypeName(v)) case None => SqlNull)
    case AsText(e) => CastText(Eval(lib, row, e))
    case AsReal(e) => CastReal(lib, Eval(lib, row, e))
    case LowerOf(e) =>
      var d := Eval(lib, row, e);
      if d.SqlText? then SqlText(Lower(d.s)) else d
    case Arg(d) => d
  }

  function Numeric(d: Datum): Option<real> {
    match d
    case SqlInt(i) => Some(i as real)
    case SqlReal(r) => Some(r)
    case SqlNumber(value, _) => Some(value)
    case _ => None
  }

  /** A comparison with NULL is unknown; numbers sort before text. */
  function SqlCompare(op: Op, a: Datum, b: Datum): Truth {
    if a.SqlNull? || b.SqlNull? then Unknown
    else
      var (below, same) :=
        if a.SqlText? && b.SqlText? then (Less(a.s, b.s), a.s == b.s)
        else if a.SqlText? || b.SqlText? then (b.SqlText?, false)
        else (Numeric(a).value < Numeric(b).value, Numeric(a).value == Numeric(b).value);
      Decided(if op.Neq? then !same else Ordered(op, below, same))
  }

  function SqlNot(t: Truth): Truth {
    match t case True => False case False => True case Unknown => Unknown
  }

  function SqlAnd(t: Truth, u: Truth): Truth {
    if t == False || u == False then False else if t == True && u == True then True else Unknown
  }

  function SqlOr(t: Truth, u: Truth): Truth {
    SqlNot(SqlAnd(SqlNot(t), SqlNot(u)))
  }

  ghost function TruthOf(lib: Lib, w: Letters, row: Row, cond: Cond): Truth {
    match cond
    case Compare(op, l, r) => SqlCompare(op, Eval(lib, row, l), Eval(lib, row, r))
    case Member(e, list) =>
      var d := Eval(lib, row, e);
      if list == [] then False
      else if exists x :: x in list && SqlCompare(Eq, d, Eval(lib, row, x)) == True then True
      else if exists x :: x in list && SqlCompare(Eq, d, Eval(lib, row, x)) == Unknown then Unknown
      else False
    case IsNull(e) => Decided(Eval(lib, row, e).SqlNull?)
    case LikeEscape(e, pattern) =>
      var d := Eval(lib, row, e);
      if d.SqlText? then Decided(Like(pattern, d.s)) else Unknown
    case Regexp(e, pattern) =>
      // the registered function answers 0 for NULL
      var d := Eval(lib, row, e);
      Decided(d.SqlText? && lib.regex(pattern, d.s) == Some(true))
    case FtsMatch(expr) => Decided(Selects(w, expr, row.text))
    case Not(c) => SqlNot(TruthOf(lib, w, row, c))
    case And(c, d) => SqlAnd(TruthOf(lib, w, row, c), TruthOf(lib, w, row, d))
    case Or(c, d) => SqlOr(TruthOf(lib, w, row, c), TruthOf(lib, w, row, d))
  }

  ghost predicate Selected(lib: Lib, w: Letters, row: Row, cond: Cond) {
    TruthOf(lib, w, row, cond) == True
  }

  // ----- the translation -----------------------------------------------------------------

  predicate IsBoolLiteral(v: string) {
    Lower(v) == "true" || Lower(v) == "false"
  }

  function AttrBoolCond(path: string, v: string): Cond {
    var want := Arg(SqlText(if Lower(v) == "true" then "true" else "false"));
    Or(Compare(Eq, JsonType(path), want), Compare(Eq, LowerOf(AsText(Extract(path))), want))
  }

  function Subject(f: Filter): Expr {
    match f.field
    case Attr(key) => AsText(Extract(JsonPath(key)))
    case _ => Column(f.field)
  }

  function Operand(f: Filter, v: string): Expr {
    Arg(SqlText(Norm(f, v)))
  }

  function Operands(f: Filter): (list: seq<Expr>)
    ensures |list| == |f.values|
  {
    seq(|f.values|, i requires 0 <= i < |f.values| => Operand(f, f.values[i]))
  }

  function FilterCond(lib: Lib, f: Filter): Cond {
    var attr := f.field.Attr?;
    var path := if attr then JsonPath(f.field.key) else "";
    match f.op
    case Eq =>
      if attr && IsBoolLiteral(f.value) then AttrBoolCond(path, f.value)
      else Compare(Eq, Subject(f), Operand(f, f.value))
    case Neq =>
      if attr && IsBoolLiteral(f.value) then Or(IsNull(Extract(path)), Not(AttrBoolCond(path, f.value)))
      else if attr then Or(IsNull(Extract(path)), Compare(Neq, AsText(Extract(path)), Arg(SqlText(f.value))))
      else Compare(Neq, Column(f.field), Operand(f, f.value))
    case In => Member(Subject(f), Operands(f))
    case Exists =>
      if attr then Not(IsNull(Extract(path)))
      else And(Not(IsNull(Column(f.field))), Compare(Neq, Column(f.field), Arg(SqlText(""))))
    case Wild => LikeEscape(Subject(f), GlobToLike(f.value))
    case Regex => Regexp(Subject(f), f.value)
    case _ =>
      match lib.parse(f.value)
      case Some(n) => Compare(f.op, AsReal(if attr then Extract(path) else Column(f.field)), Arg(SqlReal(n)))
      case None => Compare(f.op, Subject(f), Operand(f, f.value))
  }

  // ----- where the two agree -------------------------------------------------------------

  /** The text the filter looks at, if it is a column or a string attribute. */
  function TextSubject(f: Filter, e: LogEvent): Option<string> {
    match f.field
    case Attr(key) =>
      (if key in e.attributes && e.attributes[key].Str? then Some(e.attributes[key].s) else None)
    case _ => Actual(f, e)
  }

  /** The two libraries see the filter's value alike: the key can be written in
      a JSON path, a number is printed and cast to the same text, an operand
      pattern compiles, a glob subject has no newline, and text compared as a
      number is a number to both, or to neither. */
  ghost predicate Alike(lib: Lib, f: Filter, e: LogEvent) {
    && (f.field.Attr? ==> '"' !in f.field.key)
    && (f.field.Attr? && f.field.key in e.attributes && e.attributes[f.field.key].Num? ==>
          var v := e.attributes[f.field.key]; v.printed == v.cast && lib.parse(v.printed) == Some(v.value))
    && (f.op.Wild? ==> var a := Actual(f, e); a.Some? ==> '\n' !in a.value)
    && (Compares(f.op) && lib.parse(f.value).Some? ==>
          var a := TextSubject(f, e); a.Some? ==> lib.cast(a.value) == lib.parse(a.value).UnwrapOr(0.0))
  }

  /** The text "1" against the literal true, or "0" against false. */
  predicate DigitForBool(a: string, want: string) {
    (a == "1" && Lower(want) == "true") || (a == "0" && Lower(want) == "false")
  }

  /** An operand that the empty text, which is zero as a number, satisfies. */
  predicate EmptyCompares(lib: Lib, op: Op, v: string) {
    match lib.parse(v)
    case Some(n) => (match op case Gt => n < 0.0 case Gte => n <= 0.0 case Lt => n > 0.0 case Lte => n >= 0.0 case _ => false)
    case None => (match op case Gt => false case Gte => v == "" case Lt => v != "" case Lte => true case _ => false)
  }

  /** The cases in which the two engines give different answers: a null attribute
      that the filter would accept as an empty text, a digit against a boolean
      literal, and variants of a literal in a column. */
  predicate Corner(lib: Lib, f: Filter, e: LogEvent) {
    match f.field
    case Attr(key) =>
      key in e.attributes &&
      (match e.attributes[key]
       case Null =>
         (match f.op
          case Exists => true
          case Eq => f.value == ""
          case Neq => f.value == ""
          case In => "" in f.values
          case Wild => OnlyStars(f.value)
          case Regex => lib.regex(f.value, "") == Some(true)
          case _ => EmptyCompares(lib, f.op, f.value))
       case Bool(_) => false
       case Str(a) => (f.op.Eq? || f.op.Neq?) && DigitForBool(a, f.value)
       case Num(_, a, _) => (f.op.Eq? || f.op.Neq?) && DigitForBool(a, f.value))
    case _ =>
      var a, want := Actual(f, e).value, Norm(f, f.value);
      (f.op.Eq? || f.op.Neq?) && a != want
      && (DigitForBool(a, want) || (IsBoolLiteral(want) && Lower(a) == Lower(want)))
  }

  // ----- the two agree ---------------------------------------------------------------------

  lemma {:induction false} DoubledPlain(t: string)
    ensures '"' !in t ==> Doubled(t) == t
    ensures '"' in t ==> '"' in Doubled(t)
  {
    if t != "" {
      DoubledPlain(t[1..]);
      assert t == [t[0]] + t[1..];
    }
  }

  /** SQLite reads the path back to the key exactly when the key has no quote. */
  lemma PathReadsBack(key: string)
    ensures ReadPath(JsonPath(key)) == (if '"' in key then None else Some(key))
  {
    DoubledPlain(key);
    assert JsonPath(key)[3..|JsonPath(key)| - 1] == Doubled(key);
  }

  /** Text that only one of the two reads as a number is told apart by some
      comparison. */
  lemma CoercionIsExact(lib: Lib, a: string)
    ensures (forall op: Op, n: real :: Compares(op) ==>
              (ByNumber(op, lib.cast(a), n) <==> ByNumber(op, lib.parse(a).UnwrapOr(0.0), n)))
            <==> lib.cast(a) == lib.parse(a).UnwrapOr(0.0)
  {
    var x, y := lib.cast(a), lib.parse(a).UnwrapOr(0.0);
    if x != y {
      assert ByNumber(Gt, x, y) || ByNumber(Lt, x, y);
      assert !ByNumber(Gt, y, y) && !ByNumber(Lt, y, y);
    }
  }

  /** Search and live tail agree on the filter. */
  ghost predicate Agrees(lib: Lib, w: Letters, f: Filter, row: Row) {
    Selected(lib, w, row, FilterCond(lib, f)) <==> FilterMatches(lib, f, row.event)
  }

  lemma OperandsHold(f: Filter, x: Expr)
    ensures x in Operands(f) <==> exists v :: v in f.values && x == Operand(f, v)
  {
    if v :| v in f.values && x == Operand(f, v) {
      var i :| 0 <= i < |f.values| && f.values[i] == v;
      assert Operands(f)[i] == x;
    }
  }

  lemma MemberOfTexts(lib: Lib, w: Letters, f: Filter, row: Row, e: Expr)
    requires Eval(lib, row, e).SqlText? || Eval(lib, row, e).SqlNull?
    ensures var d := Eval(lib, row, e);
            Selected(lib, w, row, Member(e, Operands(f))) <==>
              d.SqlText? && exists v :: v in f.values && d.s == Norm(f, v)
  {
    var d, list := Eval(lib, row, e), Operands(f);
    forall x | x in list ensures exists v :: v in f.values && x == Operand(f, v) {
      OperandsHold(f, x);
    }
    if d.SqlText? {
      if v :| v in f.values && d.s == Norm(f, v) {
        OperandsHold(f, Operand(f, v));
        assert SqlCompare(Eq, d, Eval(lib, row, Operand(f, v))) == True;
      }
    }
  }

  lemma NotNullTruth(lib: Lib, w: Letters, row: Row, e: Expr)
    ensures TruthOf(lib, w, row, Not(IsNull(e))) == Decided(!Eval(lib, row, e).SqlNull?)
  {
    assert TruthOf(lib, w, row, IsNull(e)) == Decided(Eval(lib, row, e).SqlNull?);
  }

  /** What the condition on a literal compares: the JSON type, and the folded
      text of the value. */
  function BoolTruth(kind: Datum, value: Datum, v: string): Truth {
    var want := SqlText(if Lower(v) == "true" then "true" else "false");
    var text := CastText(value);
    SqlOr(SqlCompare(Eq, kind, want),
          SqlCompare(Eq, if text.SqlText? then SqlText(Lower(text.s)) else text, want))
  }

  lemma AttrBoolParts(lib: Lib, w: Letters, row: Row, path: string, v: string)
    ensures TruthOf(lib, w, row, AttrBoolCond(path, v))
            == BoolTruth(Eval(lib, row, JsonType(path)), Eval(lib, row, Extract(path)), v)
  {
    var want := Arg(SqlText(if Lower(v) == "true" then "true" else "false"));
    var text := AsText(Extract(path));
    var l, r := Compare(Eq, JsonType(path), want), Compare(Eq, LowerOf(text), want);
    assert AttrBoolCond(path, v) == Or(l, r);
    assert TruthOf(lib, w, row, l) == SqlCompare(Eq, Eval(lib, row, JsonType(path)), want.d);
    assert Eval(lib, row, text) == CastText(Eval(lib, row, Extract(path)));
    assert TruthOf(lib, w, row, r) == SqlCompare(Eq, Eval(lib, row, LowerOf(text)), want.d);
  }

  /** A present attribute against a literal: the JSON boolean itself, or text
      that folds to the literal; a null is neither. */
  lemma BoolTruthIs(value: Value, v: string)
    requires IsBoolLiteral(v)
    ensures var t := BoolTruth(SqlText(TypeName(value)), ExtractValue(value), v);
            match value
            case Null => t == Unknown
            case Bool(b) => t == Decided(b <==> Lower(v) == "true")
            case Str(a) => t == Decided(Lower(a) == Lower(v))
            case Num(_, _, a) => t == Decided(Lower(a) == Lower(v))
  {
    LowerDigit("1", '1');
    LowerDigit("0", '0');
  }

  lemma AttrBoolTruth(lib: Lib, w: Letters, row: Row, key: string, v: string)
    requires '"' !in key && key in row.event.attributes
    ensures var value := row.event.attributes[key];
            TruthOf(lib, w, row, AttrBoolCond(JsonPath(key), v))
            == BoolTruth(SqlText(TypeName(value)), ExtractValue(value), v)
  {
    PathReadsBack(key);
    AttrBoolParts(lib, w, row, JsonPath(key), v);
  }

  lemma LowerDigit(a: string, c: char)
    requires '0' <= c <= '9'
    ensures Lower(a) == [c] <==> a == [c]
  {
    if |a| == 1 {
      assert a == [a[0]] && Lower(a) == [Fold(a[0])];
    }
  }

  /** A literal equals the operands that fold to it, and the digit it stands for. */
  lemma BoolEqualIs(a: string, want: string)
    ensures BoolEqual(a, want) <==> IsBoolLiteral(want) && (Lower(a) == Lower(want) || DigitForBool(a, want))
  {
    LowerDigit(a, '1');
    LowerDigit(a, '0');
  }

  lemma ColumnEqAgrees(lib: Lib, w: Letters, f: Filter, row: Row)
    requires !f.field.Attr? && (f.op.Eq? || f.op.Neq?)
    ensures Agrees(lib, w, f, row) <==> !Corner(lib, f, row.event)
  {
    var a, want := Actual(f, row.event).value, Norm(f, f.value);
    assert Eval(lib, row, Column(f.field)) == SqlText(a);
    assert Selected(lib, w, row, FilterCond(lib, f)) <==> (f.op.Eq? <==> a == want);
    BoolEqualIs(a, want);
  }

  lemma ColumnAgrees(lib: Lib, w: Letters, f: Filter, row: Row)
    requires !f.field.Attr? && Alike(lib, f, row.event)
    ensures Agrees(lib, w, f, row) <==> !Corner(lib, f, row.event)
  {
    var a := Actual(f, row.event).value;
    assert Eval(lib, row, Column(f.field)) == SqlText(a);
    if f.op.Eq? || f.op.Neq? {
      ColumnEqAgrees(lib, w, f, row);
    } else if f.op.In? {
      MemberOfTexts(lib, w, f, row, Column(f.field));
    } else if f.op.Wild? {
      EnginesAgree(f.value, a);
    } else if f.op.Exists? {
      NotNullTruth(lib, w, row, Column(f.field));
      assert TruthOf(lib, w, row, Compare(Neq, Column(f.field), Arg(SqlText("")))) == Decided(a != "");
    }
  }

  lemma MissingComparesAgrees(lib: Lib, w: Letters, f: Filter, row: Row)
    requires f.field.Attr? && f.field.key !in row.event.attributes && '"' !in f.field.key
    requires Compares(f.op) || f.op.Wild? || f.op.Regex?
    ensures Agrees(lib, w, f, row)
  {
    PathReadsBack(f.field.key);
    assert Eval(lib, row, Extract(JsonPath(f.field.key))) == SqlNull;
  }

  lemma MissingEqAgrees(lib: Lib, w: Letters, f: Filter, row: Row)
    requires f.field.Attr? && f.field.key !in row.event.attributes && '"' !in f.field.key
    requires f.op.Eq? || f.op.Neq?
    ensures Agrees(lib, w, f, row)
  {
    PathReadsBack(f.field.key);
    var x := Extract(JsonPath(f.field.key));
    assert Eval(lib, row, x) == SqlNull;
    if f.op.Eq? {
      AttrBoolParts(lib, w, row, JsonPath(f.field.key), f.value);
    } else {
      assert TruthOf(lib, w, row, IsNull(x)) == True;
    }
  }

  lemma MissingAgrees(lib: Lib, w: Letters, f: Filter, row: Row)
    requires f.field.Attr? && f.field.key !in row.event.attributes && '"' !in f.field.key
    ensures Agrees(lib, w, f, row)
  {
    PathReadsBack(f.field.key);
    var x := Extract(JsonPath(f.field.key));
    assert Eval(lib, row, x) == SqlNull;
    match f.op {
      case In => MemberOfTexts(lib, w, f, row, AsText(x));
      case Exists => NotNullTruth(lib, w, row, x);
      case Eq => MissingEqAgrees(lib, w, f, row);
      case Neq => MissingEqAgrees(lib, w, f, row);
      case _ => MissingComparesAgrees(lib, w, f, row);
    }
  }

  /** What the condition of a filter on a present attribute comes to. */
  predicate AttrSelects(lib: Lib, f: Filter, value: Value) {
    var d := ExtractValue(value);
    var text, v := CastText(d), f.value;
    match f.op
    case Eq =>
      if IsBoolLiteral(v) then BoolTruth(SqlText(TypeName(value)), d, v) == True
      else SqlCompare(Eq, text, SqlText(v)) == True
    case Neq =>
      d.SqlNull? || (if IsBoolLiteral(v) then BoolTruth(SqlText(TypeName(value)), d, v) == False
                     else SqlCompare(Neq, text, SqlText(v)) == True)
    case In => text.SqlText? && exists x :: x in f.values && text.s == x
    case Exists => !d.SqlNull?
    case Wild => text.SqlText? && Like(GlobToLike(v), text.s)
    case Regex => text.SqlText? && lib.regex(v, text.s) == Some(true)
    case _ =>
      match lib.parse(v)
      case Some(n) => SqlCompare(f.op, CastReal(lib, d), SqlReal(n)) == True
      case None => SqlCompare(f.op, text, SqlText(v)) == True
  }

  /** A missing or null attribute satisfies the condition of !=. */
  lemma OrNullTruth(lib: Lib, w: Letters, row: Row, x: Expr, c: Cond)
    ensures Selected(lib, w, row, Or(IsNull(x), c)) <==> Eval(lib, row, x).SqlNull? || Selected(lib, w, row, c)
  {
    assert TruthOf(lib, w, row, IsNull(x)) == Decided(Eval(lib, row, x).SqlNull?);
    assert TruthOf(lib, w, row, Or(IsNull(x), c)) == SqlOr(TruthOf(lib, w, row, IsNull(x)), TruthOf(lib, w, row, c));
  }

  lemma NotTruth(lib: Lib, w: Letters, row: Row, c: Cond)
    ensures Selected(lib, w, row, Not(c)) <==> TruthOf(lib, w, row, c) == False
  {
    assert TruthOf(lib, w, row, Not(c)) == SqlNot(TruthOf(lib, w, row, c));
  }

  lemma AttrEqSelected(lib: Lib, w: Letters, f: Filter, row: Row)
    requires f.op.Eq? && f.field.Attr? && f.field.key in row.event.attributes && '"' !in f.field.key
    ensures Selected(lib, w, row, FilterCond(lib, f)) <==> AttrSelects(lib, f, row.event.attributes[f.field.key])
  {
    if IsBoolLiteral(f.value) {
      AttrBoolTruth(lib, w, row, f.field.key, f.value);
    } else {
      var value, x := row.event.attributes[f.field.key], Extract(JsonPath(f.field.key));
      PathReadsBack(f.field.key);
      assert Eval(lib, row, AsText(x)) == CastText(ExtractValue(value));
    }
  }

  lemma AttrNeqBoolSelected(lib: Lib, w: Letters, f: Filter, row: Row)
    requires f.op.Neq? && f.field.Attr? && f.field.key in row.event.attributes && '"' !in f.field.key
    requires IsBoolLiteral(f.value)
    ensures Selected(lib, w, row, FilterCond(lib, f)) <==> AttrSelects(lib, f, row.event.attributes[f.field.key])
  {
    var value, x := row.event.attributes[f.field.key], Extract(JsonPath(f.field.key));
    var c := AttrBoolCond(JsonPath(f.field.key), f.value);
    PathReadsBack(f.field.key);
    assert Eval(lib, row, x) == ExtractValue(value);
    OrNullTruth(lib, w, row, x, Not(c));
    NotTruth(lib, w, row, c);
    AttrBoolTruth(lib, w, row, f.field.key, f.value);
  }

  lemma AttrNeqSelected(lib: Lib, w: Letters, f: Filter, row: Row)
    requires f.op.Neq? && f.field.Attr? && f.field.key in row.event.attributes && '"' !in f.field.key
    ensures Selected(lib, w, row, FilterCond(lib, f)) <==> AttrSelects(lib, f, row.event.attributes[f.field.key])
  {
    var value, x := row.event.attributes[f.field.key], Extract(JsonPath(f.field.key));
    if IsBoolLiteral(f.value) {
      AttrNeqBoolSelected(lib, w, f, row);
    } else {
      PathReadsBack(f.field.key);
      assert Eval(lib, row, x) == ExtractValue(value);
      var c := Compare(Neq, AsText(x), Arg(SqlText(f.value)));
      OrNullTruth(lib, w, row, x, c);
      assert Eval(lib, row, AsText(x)) == CastText(ExtractValue(value));
      assert TruthOf(lib, w, row, c) == SqlCompare(Neq, CastText(ExtractValue(value)), SqlText(f.value));
    }
  }

  lemma AttrComparesSelected(lib: Lib, w: Letters, f: Filter, row: Row)
    requires f.field.Attr? && f.field.key in row.event.attributes && '"' !in f.field.key
    requires Compares(f.op) || f.op.Wild? || f.op.Regex?
    ensures Selected(lib, w, row, FilterCond(lib, f)) <==> AttrSelects(lib, f, row.event.attributes[f.field.key])
  {
    var value, x := row.event.attributes[f.field.key], Extract(JsonPath(f.field.key));
    PathReadsBack(f.field.key);
    assert Eval(lib, row, x) == ExtractValue(value);
    assert Eval(lib, row, AsText(x)) == CastText(ExtractValue(value));
  }

  lemma AttrInSelected(lib: Lib, w: Letters, f: Filter, row: Row)
    requires f.field.Attr? && f.field.key in row.event.attributes && '"' !in f.field.key && f.op.In?
    ensures Selected(lib, w, row, FilterCond(lib, f)) <==> AttrSelects(lib, f, row.event.attributes[f.field.key])
  {
    var value, x := row.event.attributes[f.field.key], Extract(JsonPath(f.field.key));
    PathReadsBack(f.field.key);
    assert Eval(lib, row, AsText(x)) == CastText(ExtractValue(value));
    MemberOfTexts(lib, w, f, row, AsText(x));
  }

  lemma AttrExistsSelected(lib: Lib, w: Letters, f: Filter, row: Row)
    requires f.field.Attr? && f.field.key in row.event.attributes && '"' !in f.field.key && f.op.Exists?
    ensures Selected(lib, w, row, FilterCond(lib, f)) <==> AttrSelects(lib, f, row.event.attributes[f.field.key])
  {
    var x := Extract(JsonPath(f.field.key));
    PathReadsBack(f.field.key);
    assert Eval(lib, row, x) == ExtractValue(row.event.attributes[f.field.key]);
    NotNullTruth(lib, w, row, x);
  }

  lemma AttrSelected(lib: Lib, w: Letters, f: Filter, row: Row)
    requires f.field.Attr? && f.field.key in row.event.attributes && '"' !in f.field.key
    ensures Selected(lib, w, row, FilterCond(lib, f)) <==> AttrSelects(lib, f, row.event.attributes[f.field.key])
  {
    match f.op {
      case In => AttrInSelected(lib, w, f, row);
      case Exists => AttrExistsSelected(lib, w, f, row);
      case Eq => AttrEqSelected(lib, w, f, row);
      case Neq => AttrNeqSelected(lib, w, f, row);
      case _ => AttrComparesSelected(lib, w, f, row);
    }
  }

  lemma NullAgrees(lib: Lib, f: Filter, e: LogEvent)
    requires f.field.Attr? && f.field.key in e.attributes && e.attributes[f.field.key] == Null
    ensures (AttrSelects(lib, f, Null) <==> FilterMatches(lib, f, e)) <==> !Corner(lib, f, e)
  {
    if f.op.Eq? || f.op.Neq? {
      NullEqAgrees(lib, f, e);
    } else if f.op.Wild? {
      StarsMatchNothing(f.value);
    }
  }

  lemma NullEqAgrees(lib: Lib, f: Filter, e: LogEvent)
    requires f.field.Attr? && f.field.key in e.attributes && e.attributes[f.field.key] == Null
    requires f.op.Eq? || f.op.Neq?
    ensures (AttrSelects(lib, f, Null) <==> FilterMatches(lib, f, e)) <==> !Corner(lib, f, e)
  {
    BoolEqualIs("", f.value);
    if IsBoolLiteral(f.value) {
      BoolTruthIs(Null, f.value);
    }
  }

  lemma ValueEqAgrees(lib: Lib, f: Filter, e: LogEvent, value: Value)
    requires f.field.Attr? && f.field.key in e.attributes && e.attributes[f.field.key] == value
    requires !value.Null? && Alike(lib, f, e) && (f.op.Eq? || f.op.Neq?)
    ensures (AttrSelects(lib, f, value) <==> FilterMatches(lib, f, e)) <==> !Corner(lib, f, e)
  {
    var a, v := CompareString(value), f.value;
    BoolEqualIs(a, v);
    if IsBoolLiteral(v) {
      BoolTruthIs(value, v);
    } else {
      assert CastText(ExtractValue(value)) == SqlText(a);
    }
  }

  lemma ValueAgrees(lib: Lib, f: Filter, e: LogEvent, value: Value)
    requires f.field.Attr? && f.field.key in e.attributes && e.attributes[f.field.key] == value
    requires !value.Null? && Alike(lib, f, e)
    ensures (AttrSelects(lib, f, value) <==> FilterMatches(lib, f, e)) <==> !Corner(lib, f, e)
  {
    var a := CompareString(value);
    if f.op.Eq? || f.op.Neq? {
      ValueEqAgrees(lib, f, e, value);
    } else {
      assert CastText(ExtractValue(value)) == SqlText(a);
      if f.op.Wild? {
        EnginesAgree(f.value, a);
      }
    }
  }

  /** Search and live tail agree on a filter exactly outside the corners. */
  lemma FilterAgreement(lib: Lib, w: Letters, f: Filter, row: Row)
    requires Alike(lib, f, row.event)
    ensures Agrees(lib, w, f, row) <==> !Corner(lib, f, row.event)
  {
    if !f.field.Attr? {
      ColumnAgrees(lib, w, f, row);
    } else if f.field.key !in row.event.attributes {
      MissingAgrees(lib, w, f, row);
    } else {
      AttrSelected(lib, w, f, row);
      var value := row.event.attributes[f.field.key];
      if value.Null? {
        NullAgrees(lib, f, row.event);
      } else {
        ValueAgrees(lib, f, row.event, value);
      }
    }
  }

  /** The corners are real: service=true streams an event of service "1" that a
      search does not return, and attr.k=* streams a null attribute. */
  lemma CornersAreReal(lib: Lib, w: Letters, row: Row, key: string)
    requires row.event.service == "1"
    requires key in row.event.attributes && row.event.attributes[key] == Null && '"' !in key
    ensures !Agrees(lib, w, Filter(Service, Eq, "true", []), row)
    ensures !Agrees(lib, w, Filter(Attr(key), Exists, "*", []), row)
  {
    var literal := "true";
    assert Lower(literal) == [Fold('t'), Fold('r'), Fold('u'), Fold('e')] == literal;
    FilterAgreement(lib, w, Filter(Service, Eq, literal, []), row);
    FilterAgreement(lib, w, Filter(Attr(key), Exists, "*", []), row);
  }

  // ----- whole queries ---------------------------------------------------------------------

  ghost predicate QueryMatches(lib: Lib, w: Letters, q: Query, e: LogEvent, keys: seq<string>)
    requires Listing(keys, e.attributes)
  {
    && (q.from.Some? ==> q.from.value <= e.timestamp)
    && (q.to.Some? ==> e.timestamp <= q.to.value)
    && (forall f :: f in q.filters ==> FilterMatches(lib, f, e))
    && TermsMatch(w, q.terms, FtsTokens(w, e, keys))
  }

  method Matches(lib: Lib, w: Letters, q: Query, e: LogEvent, keys: seq<string>) returns (ok: bool)
    requires Listing(keys, e.attributes)
    ensures ok <==> QueryMatches(lib, w, q, e, keys)
  {
    if q.from.Some? && e.timestamp < q.from.value {
      return false;
    }
    if q.to.Some? && e.timestamp > q.to.value {
      return false;
    }
    ok := MatchesFilters(lib, q.filters, e);
    if ok && |q.terms| > 0 {
      ok := MatchesTerms(w, q.terms, FtsTokens(w, e, keys));
    }
  }

  method MatchesFilters(lib: Lib, filters: seq<Filter>, e: LogEvent) returns (ok: bool)
    ensures ok <==> forall f :: f in filters ==> FilterMatches(lib, f, e)
  {
    for i := 0 to |filters|
      invariant forall f :: f in filters[..i] ==> FilterMatches(lib, f, e)
    {
      if !FilterMatches(lib, filters[i], e) {
        return false;
      }
    }
    return true;
  }

  method MatchesTerms(w: Letters, terms: seq<string>, toks: seq<string>) returns (ok: bool)
    ensures ok <==> TermsMatch(w, terms, toks)
  {
    for i := 0 to |terms|
      invariant forall t :: t in terms[..i] ==> Occurs(toks, Tokens(w, t))
    {
      var found := TermMatchesTokens(w, toks, terms[i]);
      if !found {
        return false;
      }
    }
    return true;
  }

  function FilterConds(lib: Lib, filters: seq<Filter>): (conds: seq<Cond>)
    ensures |conds| == |filters|
  {
    seq(|filters|, i requires 0 <= i < |filters| => FilterCond(lib, filters[i]))
  }

  function Bounds(q: Query): seq<Cond> {
    (if q.from.Some? then [Compare(Gte, Timestamp, Arg(SqlInt(q.from.value)))] else [])
    + (if q.to.Some? then [Compare(Lte, Timestamp, Arg(SqlInt(q.to.value)))] else [])
  }

  function Where(lib: Lib, q: Query): seq<Cond> {
    (if q.terms == [] then [] else [FtsMatch(MatchExpr(q.terms))]) + Bounds(q) + FilterConds(lib, q.filters)
  }

  method BuildWhere(lib: Lib, q: Query) returns (conds: seq<Cond>, needFts: bool)
    ensures conds == Where(lib, q)
    ensures needFts <==> q.terms != []
  {
    conds, needFts := [], false;
    if |q.terms| > 0 {
      needFts := true;
      conds := conds + [FtsMatch(MatchExpr(q.terms))];
    }
    conds := AddBounds(conds, q);
    conds := AddFilters(lib, conds, q.filters);
  }

  method AddBounds(head: seq<Cond>, q: Query) returns (conds: seq<Cond>)
    ensures conds == head + Bounds(q)
  {
    conds := head;
    if q.from.Some? {
      conds := conds + [Compare(Gte, Timestamp, Arg(SqlInt(q.from.value)))];
    }
    if q.to.Some? {
      conds := conds + [Compare(Lte, Timestamp, Arg(SqlInt(q.to.value)))];
    }
  }

  /** The loop over the filters. */
  method AddFilters(lib: Lib, head: seq<Cond>, filters: seq<Filter>) returns (conds: seq<Cond>)
    ensures conds == head + FilterConds(lib, filters)
  {
    conds := head;
    assert head + [] == head;
    for i := 0 to |filters|
      invariant conds == head + FilterConds(lib, filters[..i])
    {
      ghost var before := FilterConds(lib, filters[..i]);
      var cond := FilterCond(lib, filters[i]);
      assert FilterConds(lib, filters[..i + 1]) == before + [cond];
      Seqs.Assoc(head, before, [cond]);
      conds := conds + [cond];
    }
    assert filters[..|filters|] == filters;
  }

  /** The WHERE clause: the conditions joined by AND. */
  function Joined(conds: seq<Cond>): Cond
    requires conds != []
  {
    if |conds| == 1 then conds[0] else And(conds[0], Joined(conds[1..]))
  }

  ghost predicate RowSelected(lib: Lib, w: Letters, row: Row, conds: seq<Cond>) {
    conds == [] || Selected(lib, w, row, Joined(conds))
  }

  ghost predicate AllSelect(lib: Lib, w: Letters, row: Row, conds: seq<Cond>) {
    forall c :: c in conds ==> Selected(lib, w, row, c)
  }

  lemma {:induction false} JoinedSelects(lib: Lib, w: Letters, row: Row, conds: seq<Cond>)
    ensures RowSelected(lib, w, row, conds) <==> AllSelect(lib, w, row, conds)
  {
    if |conds| == 1 {
      assert conds == [conds[0]];
    } else if |conds| > 1 {
      var c, rest := conds[0], conds[1..];
      JoinedSelects(lib, w, row, rest);
      assert conds == [c] + rest;
      assert AllSelect(lib, w, row, conds) <==> Selected(lib, w, row, c) && AllSelect(lib, w, row, rest);
      assert Joined(conds) == And(c, Joined(rest));
      assert TruthOf(lib, w, row, And(c, Joined(rest)))
          == SqlAnd(TruthOf(lib, w, row, c), TruthOf(lib, w, row, Joined(rest)));
    }
  }

  lemma BoundsSelect(lib: Lib, w: Letters, row: Row, q: Query)
    ensures AllSelect(lib, w, row, Bounds(q)) <==>
      && (q.from.Some? ==> q.from.value <= row.event.timestamp)
      && (q.to.Some? ==> row.event.timestamp <= q.to.value)
  {
    if q.from.Some? {
      var c := Compare(Gte, Timestamp, Arg(SqlInt(q.from.value)));
      assert c in Bounds(q);
      assert Selected(lib, w, row, c) <==> q.from.value <= row.event.timestamp;
    }
    if q.to.Some? {
      var c := Compare(Lte, Timestamp, Arg(SqlInt(q.to.value)));
      assert c in Bounds(q);
      assert Selected(lib, w, row, c) <==> row.event.timestamp <= q.to.value;
    }
  }

  lemma FiltersSelect(lib: Lib, w: Letters, row: Row, fs: seq<Filter>)
    requires forall f :: f in fs ==> Alike(lib, f, row.event) && !Corner(lib, f, row.event)
    ensures AllSelect(lib, w, row, FilterConds(lib, fs))
            <==> (forall f :: f in fs ==> FilterMatches(lib, f, row.event))
  {
    var conds := FilterConds(lib, fs);
    forall i | 0 <= i < |fs| ensures Selected(lib, w, row, conds[i]) <==> FilterMatches(lib, fs[i], row.event) {
      FilterAgreement(lib, w, fs[i], row);
    }
    assert forall f :: f in fs ==> exists i :: 0 <= i < |fs| && fs[i] == f && conds[i] in conds;
  }

  lemma TermsSelect(lib: Lib, w: Letters, q: Query, e: LogEvent, keys: seq<string>)
    requires Listing(keys, e.attributes) && (q.terms != [] ==> forall k :: k in keys ==> !e.attributes[k].Null?)
    ensures q.terms != [] ==>
              var c := FtsMatch(MatchExpr(q.terms));
              && c in Where(lib, q)
              && (Selected(lib, w, Row(e, FtsText(e, keys)), c) <==> TermsMatch(w, q.terms, FtsTokens(w, e, keys)))
  {
    if q.terms != [] {
      TermsAgree(w, q.terms, e, keys);
    }
  }

  /** The same query, run as SQL over the row of an event and in memory over
      the event, gives the same answer: for every query and every event, away
      from the corners of its filters and, if it has terms, from nulls. */
  lemma QueryAgreement(lib: Lib, w: Letters, q: Query, e: LogEvent, keys: seq<string>)
    requires Listing(keys, e.attributes)
    requires forall f :: f in q.filters ==> Alike(lib, f, e) && !Corner(lib, f, e)
    requires q.terms != [] ==> forall k :: k in keys ==> !e.attributes[k].Null?
    ensures RowSelected(lib, w, Row(e, FtsText(e, keys)), Where(lib, q)) <==> QueryMatches(lib, w, q, e, keys)
  {
    var row := Row(e, FtsText(e, keys));
    JoinedSelects(lib, w, row, Where(lib, q));
    BoundsSelect(lib, w, row, q);
    FiltersSelect(lib, w, row, q.filters);
    TermsSelect(lib, w, q, e, keys);
    assert forall c :: c in Bounds(q) || c in FilterConds(lib, q.filters) ==> c in Where(lib, q);
  }
}
