/** The query language: tokens, operators, filters and terms. */
module Parse {
  import opened Model
  import opened Query
  import Seqs
  import opened Strings

  // ----- tokens --------------------------------------------------------------------

  datatype Token = Token(text: string, quoted: bool)

  function Flush(b: string, quoted: bool): seq<Token> {
    if b != "" || quoted then [Token(b, quoted)] else []
  }

  predicate IsBreak(c: char) {
    c == ' ' || c == '\t' || c == '\n'
  }

  function Then(first: seq<Token>, rest: Option<seq<Token>>): Option<seq<Token>> {
    match rest case None => None case Some(ts) => Some(first + ts)
  }

  /** The tokens of s when b was read since the last, inside quotes or not; an
      unterminated quote is an error. */
  function Tokens(b: string, inQuote: bool, s: string): Option<seq<Token>>
    decreases |s|
  {
    if s == "" then (if inQuote then None else Some(Flush(b, false)))
    else if s[0] == '"' then Then(Flush(b, inQuote), Tokens("", !inQuote, s[1..]))
    else if IsBreak(s[0]) && !inQuote then Then(Flush(b, false), Tokens("", false, s[1..]))
    else Tokens(b + [s[0]], inQuote, s[1..])
  }

  lemma ThenThen(a: seq<Token>, b: seq<Token>, rest: Option<seq<Token>>)
    ensures Then(a, Then(b, rest)) == Then(a + b, rest)
    ensures Then([], rest) == rest
  {
    if rest.Some? {
      Seqs.Assoc(a, b, rest.value);
      assert [] + rest.value == rest.value;
    }
  }

  method Tokenize(expr: string) returns (tokens: Option<seq<Token>>)
    ensures tokens == Tokens("", false, expr)
  {
    var toks, b, inQuote := [], "", false;
    assert expr[0..] == expr;
    ThenThen([], [], Tokens("", false, expr));
    for i := 0 to |expr|
      invariant Tokens("", false, expr) == Then(toks, Tokens(b, inQuote, expr[i..]))
    {
      var r := expr[i];
      assert expr[i..][1..] == expr[i + 1..];
      if r == '"' {
        ThenThen(toks, Flush(b, inQuote), Tokens("", !inQuote, expr[i + 1..]));
        toks, b, inQuote := toks + Flush(b, inQuote), "", !inQuote;
      } else if IsBreak(r) && !inQuote {
        ThenThen(toks, Flush(b, false), Tokens("", false, expr[i + 1..]));
        toks, b := toks + Flush(b, false), "";
      } else {
        b := b + [r];
      }
    }
    if inQuote {
      return None;
    }
    return Some(toks + Flush(b, false));
  }

  // ----- operators -----------------------------------------------------------------

  datatype Sign = NeSign | GtSign | GteSign | LtSign | LteSign | MatchSign | EqSign

  function Width(sign: Sign): nat {
    match sign
    case GtSign => 1
    case LtSign => 1
    case EqSign => 1
    case _ => 2
  }

  function SignText(sign: Sign): (t: string)
    ensures |t| == Width(sign)
  {
    match sign
    case NeSign => ['!', '=']
    case GtSign => ['>']
    case GteSign => ['>', '=']
    case LtSign => ['<']
    case LteSign => ['<', '=']
    case MatchSign => ['=', '~']
    case EqSign => ['=']
  }

  /** The operator at the front of a text. */
  function SignAt(s: string): (sign: Option<Sign>)
    ensures sign.Some? ==> Width(sign.value) <= |s|
  {
    if s == "" then None
    else
      var eq := |s| > 1 && s[1] == '=';
      match s[0]
      case '!' => if eq then Some(NeSign) else None
      case '>' => Some(if eq then GteSign else GtSign)
      case '<' => Some(if eq then LteSign else LtSign)
      case '=' => Some(if |s| > 1 && s[1] == '~' then MatchSign else EqSign)
      case _ => None
  }

  /** Where the first operator is, looking from i on. */
  function FindSign(tok: string, i: nat): (at: Option<(nat, Sign)>)
    requires i <= |tok|
    ensures at.Some? ==> i <= at.value.0 && at.value.0 + Width(at.value.1) <= |tok|
    decreases |tok| - i
  {
    if i == |tok| then None
    else match SignAt(tok[i..])
      case Some(sign) => Some((i, sign))
      case None => FindSign(tok, i + 1)
  }

  datatype Split3 = Split3(sign: Sign, key: string, val: string)

  /** The key is not empty: an operator in front belongs to a bare term. */
  function SplitOp(tok: string): Option<Split3> {
    if tok == "" then None
    else match FindSign(tok, 1)
      case None => None
      case Some((i, sign)) => Some(Split3(sign, tok[..i], tok[i + Width(sign)..]))
  }

  method FindOperator(tok: string) returns (split: Option<Split3>)
    ensures split == SplitOp(tok)
  {
    for i := 0 to |tok|
      invariant SplitOp(tok) == if i == 0 then SplitOp(tok) else
        match FindSign(tok, i) case None => None case Some((j, sign)) => Some(Split3(sign, tok[..j], tok[j + Width(sign)..]))
    {
      if i == 0 {
        continue;
      }
      var sign := SignAt(tok[i..]);
      if sign.Some? {
        return Some(Split3(sign.value, tok[..i], tok[i + Width(sign.value)..]));
      }
    }
    return None;
  }

  // ----- filters ---------------------------------------------------------------------

  /** strings.Trim of quotes */
  function TrimQuotes(s: string): string
    decreases |s|
  {
    if s == "" then ""
    else if s[0] == '"' then TrimQuotes(s[1..])
    else if s[|s| - 1] == '"' then TrimQuotes(s[..|s| - 1])
    else s
  }

  function Clean(s: string): string {
    TrimQuotes(TrimSpace(s))
  }

  /** Structured fields and their aliases; any other key is an attribute. */
  function KnownField(lower: string): Option<Field> {
    match lower
    case "level" => Some(Level)
    case "service" => Some(Service)
    case "source" => Some(Source)
    case "host" => Some(Source)
    case "message" => Some(Message)
    case "msg" => Some(Message)
    case "raw" => Some(Raw)
    case _ => None
  }

  const ATTR := "attr."

  function FieldOf(key: string): Field {
    match KnownField(Lower(key))
    case Some(f) => f
    case None => if ATTR <= Lower(key) then Attr(key[|ATTR|..]) else Attr(key)
  }

  function CleanAll(parts: seq<string>): seq<string> {
    if parts == [] then []
    else (if Clean(parts[0]) == "" then [] else [Clean(parts[0])]) + CleanAll(parts[1..])
  }

  function SplitList(s: string): seq<string> {
    CleanAll(Split(s, ','))
  }

  /** A filter, a bare term, or an error. */
  datatype Parsed = IsFilter(f: Filter) | IsTerm | Failed

  function EqFilter(field: Field, val: string): Filter {
    if val == "*" then Filter(field, Exists, "", [])
    else if val != "" && val[0] == '(' && val[|val| - 1] == ')' && |val| > 1 then
      Filter(field, In, "", SplitList(val[1..|val| - 1]))
    else if '*' in val then Filter(field, Wild, val, [])
    else Filter(field, Eq, val, [])
  }

  function ParseFilter(compiles: string -> bool, tok: string): Parsed {
    match SplitOp(tok)
    case None => IsTerm
    case Some(Split3(sign, rawKey, rawVal)) =>
      var key, val := TrimSpace(rawKey), Clean(rawVal);
      if key == "" then IsTerm
      else
        var field := FieldOf(key);
        if field == Attr("") then Failed
        else match sign
          case NeSign => IsFilter(Filter(field, Neq, val, []))
          case GtSign => IsFilter(Filter(field, Gt, val, []))
          case GteSign => IsFilter(Filter(field, Gte, val, []))
          case LtSign => IsFilter(Filter(field, Lt, val, []))
          case LteSign => IsFilter(Filter(field, Lte, val, []))
          case MatchSign => if compiles(val) then IsFilter(Filter(field, Regex, val, [])) else Failed
          case EqSign => IsFilter(EqFilter(field, val))
  }

  // ----- expressions --------------------------------------------------------------------

  /** The time directives as written. */
  datatype TimeSpec = TimeSpec(last: string, from: string, to: string)

  /** What an expression comes to. */
  datatype Expr = Expr(filters: seq<Filter>, terms: seq<string>, time: TimeSpec)

  const NO_TIME := TimeSpec("", "", "")

  /** What the parser takes from its libraries: regexp.Compile, and the readers
      of relative and of absolute times. */
  datatype Readers = Readers(compiles: string -> bool, relative: string -> bool, absolute: string -> bool)

  datatype Timed = NotTime | TimeError | TimeSet(time: TimeSpec)

  function ParseTimeDirective(r: Readers, time: TimeSpec, tok: string): Timed {
    match SplitOp(tok)
    case None => NotTime
    case Some(Split3(sign, rawKey, rawVal)) =>
      var key, val := Lower(TrimSpace(rawKey)), Clean(rawVal);
      if key != "last" && key != "from" && key != "to" then NotTime
      else if sign != EqSign || val == "" then TimeError
      else if key == "last" then
        if r.relative(val) && time.last == "" then TimeSet(time.(last := val)) else TimeError
      else if !r.absolute(val) then TimeError
      else if key == "from" then if time.from == "" then TimeSet(time.(from := val)) else TimeError
      else if time.to == "" then TimeSet(time.(to := val)) else TimeError
  }

  /** One more token. */
  function Add(r: Readers, q: Expr, tok: Token): Option<Expr> {
    if tok.quoted then Some(q.(terms := q.terms + [tok.text]))
    else match ParseTimeDirective(r, q.time, tok.text)
      case TimeError => None
      case TimeSet(time) => Some(q.(time := time))
      case NotTime =>
        match ParseFilter(r.compiles, tok.text)
        case Failed => None
        case IsFilter(f) => Some(q.(filters := q.filters + [f]))
        case IsTerm => Some(if tok.text == "" then q else q.(terms := q.terms + [tok.text]))
  }

  function AddAll(r: Readers, q: Expr, toks: seq<Token>): Option<Expr>
    decreases |toks|
  {
    if toks == [] then Some(q)
    else match Add(r, q, toks[0])
      case None => None
      case Some(q') => AddAll(r, q', toks[1..])
  }

  function ParseExpr(r: Readers, expr: string): Option<Expr> {
    match Tokens("", false, expr)
    case None => None
    case Some(toks) => AddAll(r, Expr([], [], NO_TIME), toks)
  }

  method ParseQuery(r: Readers, expr: string) returns (q: Option<Expr>)
    ensures q == ParseExpr(r, expr)
  {
    var tokens := Tokenize(expr);
    if tokens.None? {
      return None;
    }
    var toks, query := tokens.value, Expr([], [], NO_TIME);
    assert toks[0..] == toks;
    for i := 0 to |toks|
      invariant ParseExpr(r, expr) == AddAll(r, query, toks[i..])
    {
      assert toks[i..][1..] == toks[i + 1..];
      var next := Add(r, query, toks[i]);
      if next.None? {
        return None;
      }
      query := next.value;
    }
    return Some(query);
  }

  // ----- the printer --------------------------------------------------------------------

  function KeyText(field: Field): string {
    match field
    case Level => "level"
    case Service => "service"
    case Source => "source"
    case Message => "message"
    case Raw => "raw"
    case Attr(key) => ATTR + key
  }

  function Join(xs: seq<string>): string {
    if xs == [] then "" else if |xs| == 1 then xs[0] else xs[0] + ([','] + Join(xs[1..]))
  }

  function SignOf(op: Op): Sign {
    match op
    case Neq => NeSign
    case Gt => GtSign
    case Gte => GteSign
    case Lt => LtSign
    case Lte => LteSign
    case Regex => MatchSign
    case _ => EqSign
  }

  function ValueText(f: Filter): string {
    match f.op
    case Exists => "*"
    case In => ['('] + (Join(f.values) + [')'])
    case _ => f.value
  }

  function FilterText(f: Filter): string {
    KeyText(f.field) + (SignText(SignOf(f.op)) + ValueText(f))
  }

  /** An item of an expression: a filter, or a quoted term. */
  datatype Item = FilterItem(f: Filter) | TermItem(t: string)

  function ItemText(item: Item): string {
    match item
    case FilterItem(f) => FilterText(f)
    case TermItem(t) => ['"'] + (t + ['"'])
  }

  function Print(items: seq<Item>): string {
    if items == [] then "" else ItemText(items[0]) + ([' '] + Print(items[1..]))
  }

  /** Text without whitespace or quotes. */
  predicate Plain(s: string) {
    forall c :: c in s ==> !IsSpace(c) && c != '"'
  }

  predicate PlainKey(key: string) {
    key != "" && Plain(key) && forall c :: c in key ==> c != '!' && c != '<' && c != '>' && c != '='
  }

  predicate PlainElement(x: string) {
    x != "" && Plain(x) && ',' !in x
  }

  predicate Parenthesized(v: string) {
    |v| > 1 && v[0] == '(' && v[|v| - 1] == ')'
  }

  /** A filter that its text means: no accidental star, list, or operator. */
  predicate Printable(compiles: string -> bool, f: Filter) {
    && (f.field.Attr? ==> PlainKey(f.field.key))
    && Plain(f.value)
    && (f.op.In? || f.values == [])
    && match f.op
       case Exists => f.value == ""
       case In => f.value == "" && forall x :: x in f.values ==> PlainElement(x)
       case Eq => '*' !in f.value && !Parenthesized(f.value) && (f.value != "" ==> f.value[0] != '~')
       case Wild => '*' in f.value && f.value != "*" && !Parenthesized(f.value) && f.value[0] != '~'
       case Regex => compiles(f.value)
       case Gt => f.value != "" ==> f.value[0] != '='
       case Lt => f.value != "" ==> f.value[0] != '='
       case _ => true
  }

  predicate PrintableItem(compiles: string -> bool, item: Item) {
    match item
    case FilterItem(f) => Printable(compiles, f)
    case TermItem(t) => '"' !in t
  }

  function Filters(items: seq<Item>): seq<Filter> {
    if items == [] then []
    else (match items[0] case FilterItem(f) => [f] case TermItem(_) => []) + Filters(items[1..])
  }

  function Terms(items: seq<Item>): seq<string> {
    if items == [] then []
    else (match items[0] case FilterItem(_) => [] case TermItem(t) => [t]) + Terms(items[1..])
  }

  // ----- parsing undoes printing: lists ------------------------------------------------------

  lemma {:induction false} TrimsNothing(s: string)
    requires Plain(s)
    ensures TrimSpace(s) == s && TrimQuotes(s) == s && Clean(s) == s
  {
    if s != "" {
      assert s[0] in s && s[|s| - 1] in s;
    }
  }

  lemma {:induction false} SplitNone(s: string, c: char)
    requires c !in s
    ensures Split(s, c) == [s]
  {
    if s != "" {
      assert s[0] in s && forall x :: x in s[1..] ==> x in s;
      SplitNone(s[1..], c);
      assert s == [s[0]] + s[1..];
    }
  }

  lemma {:induction false} SplitFirst(l: string, c: char, r: string)
    requires c !in l
    ensures Split(l + ([c] + r), c) == [l] + Split(r, c)
  {
    var s := l + ([c] + r);
    if l == "" {
      assert s == [c] + r && s[1..] == r;
    } else {
      assert l[0] in l && forall x :: x in l[1..] ==> x in l;
      SplitFirst(l[1..], c, r);
      assert s[1..] == l[1..] + ([c] + r);
      assert [l[0]] + l[1..] == l;
    }
  }

  lemma {:induction false} ListReads(xs: seq<string>)
    requires forall x :: x in xs ==> PlainElement(x)
    ensures SplitList(Join(xs)) == xs
    decreases |xs|
  {
    if xs == [] {
      assert CleanAll([""]) == [] + CleanAll([]);
    } else {
      var x := xs[0];
      assert PlainElement(x);
      TrimsNothing(x);
      if |xs| == 1 {
        SplitNone(x, ',');
        assert CleanAll([x]) == [x] + CleanAll([]);
        assert xs == [x];
      } else {
        SplitFirst(x, ',', Join(xs[1..]));
        ListReads(xs[1..]);
        var parts := Split(Join(xs[1..]), ',');
        assert ([x] + parts)[1..] == parts;
        assert xs == [x] + xs[1..];
      }
    }
  }

  lemma {:induction false} JoinIsPlain(xs: seq<string>)
    requires forall x :: x in xs ==> PlainElement(x)
    ensures Plain(Join(xs))
    decreases |xs|
  {
    if xs != [] {
      assert PlainElement(xs[0]);
      if |xs| > 1 {
        JoinIsPlain(xs[1..]);
      }
    }
  }

  // ----- parsing undoes printing: filters -----------------------------------------------------

  predicate Silent(s: string) {
    forall c :: c in s ==> c != '!' && c != '<' && c != '>' && c != '='
  }

  lemma {:induction false} NoSignInKey(key: string, rest: string, i: nat)
    requires Silent(key) && i <= |key|
    ensures FindSign(key + rest, i) == FindSign(key + rest, |key|)
    decreases |key| - i
  {
    var tok := key + rest;
    if i < |key| {
      assert tok[i..][0] == key[i] && key[i] in key;
      assert SignAt(tok[i..]) == None;
      NoSignInKey(key, rest, i + 1);
    }
  }

  /** The text after a sign does not make it another sign. */
  predicate Follows(sign: Sign, val: string) {
    match sign
    case GtSign => val == "" || val[0] != '='
    case LtSign => val == "" || val[0] != '='
    case EqSign => val == "" || val[0] != '~'
    case _ => true
  }

  lemma SignReads(sign: Sign, val: string)
    requires Follows(sign, val)
    ensures SignAt(SignText(sign) + val) == Some(sign)
  {
    var s := SignText(sign) + val;
    assert s[0] == SignText(sign)[0];
    assert |s| > 1 ==> s[1] == if Width(sign) == 2 then SignText(sign)[1] else val[0];
  }

  lemma OpSplits(key: string, sign: Sign, val: string)
    requires key != "" && Silent(key) && Follows(sign, val)
    ensures SplitOp(key + (SignText(sign) + val)) == Some(Split3(sign, key, val))
  {
    var rest := SignText(sign) + val;
    var tok := key + rest;
    NoSignInKey(key, rest, 1);
    Seqs.Split(key, rest);
    SignReads(sign, val);
    assert tok[|key|..] == rest;
    Seqs.Split(SignText(sign), val);
    assert tok[|key| + Width(sign)..] == rest[Width(sign)..];
  }

  lemma KeyIsRead(field: Field)
    requires field.Attr? ==> PlainKey(field.key)
    ensures var key := KeyText(field);
            && key != "" && Silent(key) && Plain(key)
            && FieldOf(key) == field && Lower(key) != "last" && Lower(key) != "from" && Lower(key) != "to"
  {
    var key := KeyText(field);
    if field.Attr? {
      assert Lower(key)[..|ATTR|] == ATTR;
      assert key[|ATTR|..] == field.key;
      assert Lower(key)[0] == 'a' && |Lower(key)| > 5;
    } else {
      assert Lower(key) == key;
    }
  }

  lemma ValueFollows(compiles: string -> bool, f: Filter)
    requires Printable(compiles, f)
    ensures Follows(SignOf(f.op), ValueText(f)) && Plain(ValueText(f))
  {
    if f.op.In? {
      JoinIsPlain(f.values);
    }
  }

  lemma InReads(field: Field, xs: seq<string>)
    requires forall x :: x in xs ==> PlainElement(x)
    ensures EqFilter(field, ['('] + (Join(xs) + [')'])) == Filter(field, In, "", xs)
  {
    var list := Join(xs);
    var v := ['('] + (list + [')']);
    assert v[0] == '(' && v[|v| - 1] == ')' && |v| > 1;
    assert v[1..|v| - 1] == list;
    ListReads(xs);
  }

  lemma EqReads(compiles: string -> bool, f: Filter)
    requires Printable(compiles, f) && SignOf(f.op).EqSign?
    ensures EqFilter(f.field, ValueText(f)) == f
  {
    if f.op.In? {
      InReads(f.field, f.values);
    }
  }

  lemma TextIsPlain(compiles: string -> bool, f: Filter)
    requires Printable(compiles, f)
    ensures Plain(FilterText(f)) && FilterText(f) != ""
  {
    KeyIsRead(f.field);
    ValueFollows(compiles, f);
    var sign := SignText(SignOf(f.op));
    assert forall c :: c in sign ==> c == '!' || c == '=' || c == '<' || c == '>' || c == '~';
    assert Plain(sign + ValueText(f));
  }

  lemma TextSplits(compiles: string -> bool, f: Filter)
    requires Printable(compiles, f)
    ensures SplitOp(FilterText(f)) == Some(Split3(SignOf(f.op), KeyText(f.field), ValueText(f)))
    ensures TrimSpace(KeyText(f.field)) == KeyText(f.field) && Clean(ValueText(f)) == ValueText(f)
  {
    KeyIsRead(f.field);
    ValueFollows(compiles, f);
    OpSplits(KeyText(f.field), SignOf(f.op), ValueText(f));
    TrimsNothing(KeyText(f.field));
    TrimsNothing(ValueText(f));
  }

  lemma NotATime(r: Readers, time: TimeSpec, f: Filter)
    requires Printable(r.compiles, f)
    ensures ParseTimeDirective(r, time, FilterText(f)) == NotTime
  {
    TextSplits(r.compiles, f);
    KeyIsRead(f.field);
  }

  /** The text of a filter is read as that filter, for all ten operators. */
  lemma FilterReads(r: Readers, f: Filter)
    requires Printable(r.compiles, f)
    ensures ParseFilter(r.compiles, FilterText(f)) == IsFilter(f)
  {
    TextSplits(r.compiles, f);
    KeyIsRead(f.field);
    if SignOf(f.op).EqSign? {
      EqReads(r.compiles, f);
    }
  }

  // ----- parsing undoes printing: expressions ---------------------------------------------------

  lemma {:induction false} PlainToken(b: string, s: string, rest: string)
    requires Plain(s)
    ensures Tokens(b, false, s + ([' '] + rest)) == Then(Flush(b + s, false), Tokens("", false, rest))
    decreases |s|
  {
    var text := s + ([' '] + rest);
    if s == "" {
      assert text[1..] == rest && b + s == b;
    } else {
      assert s[0] in s && text[1..] == s[1..] + ([' '] + rest);
      PlainToken(b + [s[0]], s[1..], rest);
      assert b + [s[0]] + s[1..] == b + s;
    }
  }

  lemma {:induction false} QuotedToken(b: string, t: string, rest: string)
    requires '"' !in t
    ensures Tokens(b, true, t + (['"'] + rest)) == Then([Token(b + t, true)], Tokens("", false, rest))
    decreases |t|
  {
    var text := t + (['"'] + rest);
    if t == "" {
      assert text[1..] == rest && b + t == b;
    } else {
      assert text[1..] == t[1..] + (['"'] + rest);
      QuotedToken(b + [t[0]], t[1..], rest);
      assert b + [t[0]] + t[1..] == b + t;
    }
  }

  function TokenOf(item: Item): Token {
    match item
    case FilterItem(f) => Token(FilterText(f), false)
    case TermItem(t) => Token(t, true)
  }

  function TokensOf(items: seq<Item>): seq<Token> {
    if items == [] then [] else [TokenOf(items[0])] + TokensOf(items[1..])
  }

  lemma ItemTokens(r: Readers, item: Item, rest: string)
    requires PrintableItem(r.compiles, item)
    ensures Tokens("", false, ItemText(item) + ([' '] + rest)) == Then([TokenOf(item)], Tokens("", false, rest))
  {
    match item {
      case FilterItem(f) =>
        TextIsPlain(r.compiles, f);
        PlainToken("", FilterText(f), rest);
        assert "" + FilterText(f) == FilterText(f);
      case TermItem(t) =>
        var after := [' '] + rest;
        var text := ['"'] + (t + (['"'] + after));
        assert ItemText(item) + after == text && text[1..] == t + (['"'] + after);
        QuotedToken("", t, after);
        assert "" + t == t && after[1..] == rest;
        ThenThen([], [], Tokens("", false, rest));
        ThenThen([], [], Tokens("", true, text[1..]));
    }
  }

  lemma {:induction false} PrintTokens(r: Readers, items: seq<Item>)
    requires forall item :: item in items ==> PrintableItem(r.compiles, item)
    ensures Tokens("", false, Print(items)) == Some(TokensOf(items))
    decreases |items|
  {
    if items != [] {
      ItemTokens(r, items[0], Print(items[1..]));
      PrintTokens(r, items[1..]);
    }
  }

  function Extended(q: Expr, items: seq<Item>): Expr {
    q.(filters := q.filters + Filters(items), terms := q.terms + Terms(items))
  }

  lemma ItemAdds(r: Readers, q: Expr, item: Item)
    requires PrintableItem(r.compiles, item)
    ensures Add(r, q, TokenOf(item)) == Some(Extended(q, [item]))
  {
    assert Filters([item]) == match item case FilterItem(f) => [f] case TermItem(_) => [];
    assert Terms([item]) == match item case FilterItem(_) => [] case TermItem(t) => [t];
    match item {
      case FilterItem(f) =>
        FilterReads(r, f);
        NotATime(r, q.time, f);
        assert q.terms + [] == q.terms;
      case TermItem(t) => assert q.filters + [] == q.filters;
    }
  }

  lemma ExtendedTwice(q: Expr, items: seq<Item>)
    requires items != []
    ensures Extended(Extended(q, [items[0]]), items[1..]) == Extended(q, items)
  {
    var first, rest := [items[0]], items[1..];
    assert first[1..] == [] && Filters([]) == [] && Terms([]) == [];
    assert Filters(items) == Filters(first) + Filters(rest);
    assert Terms(items) == Terms(first) + Terms(rest);
    Seqs.Assoc(q.filters, Filters(first), Filters(rest));
    Seqs.Assoc(q.terms, Terms(first), Terms(rest));
  }

  lemma {:induction false} ItemsAdd(r: Readers, q: Expr, items: seq<Item>)
    requires forall item :: item in items ==> PrintableItem(r.compiles, item)
    ensures AddAll(r, q, TokensOf(items)) == Some(Extended(q, items))
    decreases |items|
  {
    if items == [] {
      assert q.filters + [] == q.filters && q.terms + [] == q.terms;
    } else {
      ItemAdds(r, q, items[0]);
      ItemsAdd(r, Extended(q, [items[0]]), items[1..]);
      ExtendedTwice(q, items);
      assert TokensOf(items)[1..] == TokensOf(items[1..]);
    }
  }

  /** Parsing undoes printing: any list of printable filters and quoted terms, in
      any order, parses to those filters and those terms, in order. */
  lemma ParseUndoesPrint(r: Readers, items: seq<Item>)
    requires forall item :: item in items ==> PrintableItem(r.compiles, item)
    ensures ParseExpr(r, Print(items)) == Some(Expr(Filters(items), Terms(items), NO_TIME))
  {
    PrintTokens(r, items);
    ItemsAdd(r, Expr([], [], NO_TIME), items);
    assert [] + Filters(items) == Filters(items) && [] + Terms(items) == Terms(items);
  }
}
