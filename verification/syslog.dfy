/** The structured data of RFC 5424 messages (section 6.3): splitting it off the
    message, splitting it into elements, and unescaping parameter values. */
module Syslog {
  import opened Model
  import Seqs
  import opened Strings

  datatype Param = Param(key: string, value: string)

  datatype AnyElement = Element(id: string, params: seq<Param>)

  /** What an element stores: that it was there, or the value of a parameter. */
  datatype Attribute = Present | Value(s: string)

  type Attributes = map<string, Attribute>

  // ----- the printer (section 6.3.3 of RFC 5424) -------------------------------------

  /** SD-NAME: printable ASCII without '=', ']', '"' and space. */
  predicate Name(n: string) {
    n != "" && forall c :: c in n ==> '!' <= c <= '~' && c != '=' && c != ']' && c != '"'
  }

  predicate Named(e: AnyElement) {
    Name(e.id) && forall p :: p in e.params ==> Name(p.key)
  }

  /** An element that section 6.3 of RFC 5424 allows. */
  type Element = e: AnyElement | Named(e) witness Element("x", [])

  function EscapeChar(c: char): string {
    if c == '"' || c == '\\' || c == ']' then ['\\', c] else [c]
  }

  function Escape(v: string): string {
    if v == "" then "" else EscapeChar(v[0]) + Escape(v[1..])
  }

  function PrintParam(p: Param): string {
    p.key + ("=\"" + (Escape(p.value) + "\""))
  }

  function PrintParams(ps: seq<Param>): string {
    if ps == [] then "" else " " + (PrintParam(ps[0]) + PrintParams(ps[1..]))
  }

  function Body(e: Element): string {
    e.id + PrintParams(e.params)
  }

  function PrintElement(e: Element): string {
    "[" + (Body(e) + "]")
  }

  function PrintElements(es: seq<Element>): string {
    if es == [] then "" else PrintElement(es[0]) + PrintElements(es[1..])
  }

  /** STRUCTURED-DATA: the elements, or the nil value when there are none. */
  function PrintData(es: seq<Element>): string {
    if es == [] then "-" else PrintElements(es)
  }

  /** STRUCTURED-DATA [SP MSG] */
  function PrintRest(es: seq<Element>, msg: string): string {
    PrintData(es) + if msg == "" then "" else " " + msg
  }

  // ----- splitting the data off the message --------------------------------------------

  /** Where a scan is: inside quotes, after a backslash, inside brackets. */
  datatype Scan = Scan(inQuote: bool, escaped: bool, depth: int)

  const START := Scan(false, false, 0)

  function Step(st: Scan, c: char): Scan {
    if st.escaped then st.(escaped := false)
    else if c == '\\' then st.(escaped := true)
    else if c == '"' then st.(inQuote := !st.inQuote)
    else if st.inQuote then st
    else if c == '[' then st.(depth := st.depth + 1)
    else if c == ']' then st.(depth := st.depth - 1)
    else st
  }

  function Steps(st: Scan, s: string): Scan
    decreases |s|
  {
    if s == "" then st else Steps(Step(st, s[0]), s[1..])
  }

  /** The character closes a bracket. */
  predicate Closes(st: Scan, c: char) {
    !st.escaped && !st.inQuote && c == ']'
  }

  /** The scan ends at the front of s: the last bracket closes there, and no
      further element follows. */
  predicate Ends(st: Scan, s: string)
    requires s != ""
  {
    Closes(st, s[0]) && st.depth == 1 && !(|s| > 1 && s[1] == '[')
  }

  /** How much of s belongs to the structured data, if the data ends in s. */
  function DataLength(st: Scan, s: string): (n: Option<nat>)
    ensures n.Some? ==> 0 < n.value <= |s|
    decreases |s|
  {
    if s == "" then None
    else if Ends(st, s) then Some(1)
    else match DataLength(Step(st, s[0]), s[1..])
      case None => None
      case Some(n) => Some(n + 1)
  }

  function SplitStructuredData(s: string): (string, string) {
    var t := TrimLeft(s, ' ');
    if t != "" && t[0] == '-' then ("", TrimPrefix(t[1..], ' '))
    else if t == "" || t[0] != '[' then ("", t)
    else match DataLength(START, t)
      case None => (t, "")
      case Some(n) => (t[..n], TrimPrefix(t[n..], ' '))
  }

  /** The brackets a name opens and never closes, when read after a backslash or
      not, and whether it ends in a backslash that escapes what follows. */
  function Opens(n: string, escaped: bool): nat {
    if n == "" then 0
    else (if !escaped && n[0] == '[' then 1 else 0) + Opens(n[1..], !escaped && n[0] == '\\')
  }

  function EndsEscaped(n: string, escaped: bool): bool {
    if n == "" then escaped else EndsEscaped(n[1..], !escaped && n[0] == '\\')
  }

  function OpensInKeys(ps: seq<Param>): nat {
    if ps == [] then 0 else Opens(ps[0].key, false) + OpensInKeys(ps[1..])
  }

  /** The closing bracket of the element is hidden by its ID. */
  predicate Hidden(e: Element) {
    e.params == [] && EndsEscaped(e.id, false)
  }

  /** By how much the element leaves the scan too deep. */
  function Excess(e: Element): nat {
    Opens(e.id, false) + OpensInKeys(e.params) + if Hidden(e) then 1 else 0
  }

  function TotalExcess(es: seq<Element>): nat {
    if es == [] then 0 else Excess(es[0]) + TotalExcess(es[1..])
  }

  /** No bracket closes anywhere in s. */
  predicate Quiet(st: Scan, s: string)
    decreases |s|
  {
    s == "" || (!Closes(st, s[0]) && Quiet(Step(st, s[0]), s[1..]))
  }

  function Shift(n: Option<nat>, more: nat): Option<nat> {
    match n case None => None case Some(k) => Some(k + more)
  }

  /** Where the data ends when a bracket closed, n characters on, leaving this
      depth in front of rest. */
  function After(depth: nat, rest: string, n: nat): Option<nat> {
    if depth == 0 && !(rest != "" && rest[0] == '[') then Some(n)
    else Shift(DataLength(Scan(false, false, depth), rest), n)
  }

  lemma AfterShifted(depth: nat, rest: string, a: nat, b: nat)
    ensures Shift(After(depth, rest, a), b) == After(depth, rest, a + b)
  {
    Shifted(DataLength(Scan(false, false, depth), rest), a, b);
  }

  lemma Shifted(n: Option<nat>, a: nat, b: nat)
    ensures Shift(Shift(n, a), b) == Shift(n, a + b)
  {
  }

  lemma {:induction false} QuietConcat(st: Scan, s: string, t: string)
    requires Quiet(st, s) && Quiet(Steps(st, s), t)
    ensures Quiet(st, s + t) && Steps(st, s + t) == Steps(Steps(st, s), t)
    decreases |s|
  {
    if s == "" {
      assert s + t == t;
    } else {
      assert (s + t)[1..] == s[1..] + t;
      QuietConcat(Step(st, s[0]), s[1..], t);
    }
  }

  lemma {:induction false} QuietPasses(st: Scan, s: string, rest: string)
    requires Quiet(st, s)
    ensures DataLength(st, s + rest) == Shift(DataLength(Steps(st, s), rest), |s|)
    decreases |s|
  {
    if s == "" {
      assert s + rest == rest;
    } else {
      assert (s + rest)[1..] == s[1..] + rest;
      QuietPasses(Step(st, s[0]), s[1..], rest);
    }
  }

  lemma {:induction false} NameIsQuiet(n: string, escaped: bool, depth: int)
    requires forall c :: c in n ==> c != ']' && c != '"'
    ensures var st := Scan(false, escaped, depth);
            Quiet(st, n) && Steps(st, n) == Scan(false, EndsEscaped(n, escaped), depth + Opens(n, escaped))
  {
    if n != "" {
      var st' := Step(Scan(false, escaped, depth), n[0]);
      assert n[0] in n && forall c :: c in n[1..] ==> c in n;
      NameIsQuiet(n[1..], st'.escaped, st'.depth);
    }
  }

  lemma {:induction false} EscapedIsQuiet(v: string, depth: int)
    ensures var st := Scan(true, false, depth); Quiet(st, Escape(v)) && Steps(st, Escape(v)) == st
  {
    if v != "" {
      var st := Scan(true, false, depth);
      EscapedIsQuiet(v[1..], depth);
      EscapedCharIsQuiet(v[0], depth);
      QuietConcat(st, EscapeChar(v[0]), Escape(v[1..]));
    }
  }

  lemma EscapedCharIsQuiet(c: char, depth: int)
    ensures var st := Scan(true, false, depth); Quiet(st, EscapeChar(c)) && Steps(st, EscapeChar(c)) == st
  {
    var st, s := Scan(true, false, depth), EscapeChar(c);
    if |s| == 2 {
      assert s[1..] == [c];
      assert [c][1..] == "";
      assert Steps(Step(st, '\\'), [c]) == Steps(st, "");
    }
  }

  lemma QuotesToggle(escaped: bool, depth: int)
    ensures var st := Scan(false, escaped, depth);
            Quiet(st, "=\"") && Steps(st, "=\"") == Scan(true, false, depth)
    ensures var st := Scan(true, false, depth); Quiet(st, "\"") && Steps(st, "\"") == Scan(false, false, depth)
  {
    assert "=\""[1..] == "\"" && "\""[1..] == "";
  }

  lemma ParamIsQuiet(p: Param, depth: int)
    requires Name(p.key)
    ensures var st, s := Scan(false, false, depth), PrintParam(p);
            Quiet(st, s) && Steps(st, s) == Scan(false, false, depth + Opens(p.key, false))
  {
    var d := depth + Opens(p.key, false);
    NameIsQuiet(p.key, false, depth);
    QuotesToggle(EndsEscaped(p.key, false), d);
    EscapedIsQuiet(p.value, d);
    QuietConcat(Scan(true, false, d), Escape(p.value), "\"");
    QuietConcat(Scan(false, EndsEscaped(p.key, false), d), "=\"", Escape(p.value) + "\"");
    QuietConcat(Scan(false, false, depth), p.key, "=\"" + (Escape(p.value) + "\""));
  }

  lemma SpaceIsQuiet(escaped: bool, depth: int)
    ensures var st := Scan(false, escaped, depth); Quiet(st, " ") && Steps(st, " ") == Scan(false, false, depth)
  {
    assert " "[1..] == "";
  }

  lemma {:induction false} ParamsAreQuiet(ps: seq<Param>, escaped: bool, depth: int)
    requires forall p :: p in ps ==> Name(p.key)
    ensures var st, s := Scan(false, escaped, depth), PrintParams(ps);
            Quiet(st, s) && Steps(st, s) == Scan(false, escaped && ps == [], depth + OpensInKeys(ps))
  {
    if ps != [] {
      var d := depth + Opens(ps[0].key, false);
      ParamIsQuiet(ps[0], depth);
      ParamsAreQuiet(ps[1..], false, d);
      QuietConcat(Scan(false, false, depth), PrintParam(ps[0]), PrintParams(ps[1..]));
      SpaceIsQuiet(escaped, depth);
      QuietConcat(Scan(false, escaped, depth), " ", PrintParam(ps[0]) + PrintParams(ps[1..]));
    }
  }

  lemma BodyIsQuiet(e: Element, depth: int)
    ensures var st, s := Scan(false, false, depth), Body(e);
            && Quiet(st, s)
            && Steps(st, s) == Scan(false, Hidden(e), depth + Opens(e.id, false) + OpensInKeys(e.params))
  {
    NameIsQuiet(e.id, false, depth);
    ParamsAreQuiet(e.params, EndsEscaped(e.id, false), depth + Opens(e.id, false));
    QuietConcat(Scan(false, false, depth), e.id, PrintParams(e.params));
  }

  lemma OpenPasses(depth: nat, s: string)
    ensures DataLength(Scan(false, false, depth), "[" + s) == Shift(DataLength(Scan(false, false, depth + 1), s), 1)
  {
    assert ("[" + s)[1..] == s;
  }

  lemma ClosePasses(escaped: bool, depth: nat, rest: string)
    requires depth > 0
    ensures var st := Scan(false, escaped, depth);
            DataLength(st, "]" + rest)
            == After(if escaped then depth else depth - 1, rest, 1)
  {
    var st, s := Scan(false, escaped, depth), "]" + rest;
    assert s[0] == ']' && s[1..] == rest;
    if !escaped && depth == 1 && !(rest != "" && rest[0] == '[') {
      assert Ends(st, s);
    } else {
      assert |s| > 1 ==> s[1] == rest[0];
      assert !Ends(st, s);
      assert Step(st, s[0]) == Scan(false, false, if escaped then depth else depth - 1);
    }
  }

  /** The scan passes a bracketed body whose own brackets left it at d. */
  lemma BracketedPasses(body: string, rest: string, depth: nat, hidden: bool, d: nat)
    requires var st := Scan(false, false, depth + 1); Quiet(st, body) && Steps(st, body) == Scan(false, hidden, d)
    requires d > 0
    ensures DataLength(Scan(false, false, depth), "[" + (body + ("]" + rest)))
            == After(if hidden then d else d - 1, rest, |body| + 2)
  {
    OpenPasses(depth, body + ("]" + rest));
    QuietPasses(Scan(false, false, depth + 1), body, "]" + rest);
    ClosePasses(hidden, d, rest);
    var depth' := if hidden then d else d - 1;
    AfterShifted(depth', rest, 1, |body|);
    AfterShifted(depth', rest, 1 + |body|, 1);
  }

  lemma Reassociate(open: string, body: string, close: string, rest: string)
    ensures (open + (body + close)) + rest == open + (body + (close + rest))
  {
  }

  /** The scan passes an element, left deeper by its excess, unless the element
      is balanced and nothing follows it. */
  lemma ElementPasses(e: Element, depth: nat, rest: string)
    ensures DataLength(Scan(false, false, depth), PrintElement(e) + rest)
            == After(depth + Excess(e), rest, |PrintElement(e)|)
  {
    var body := Body(e);
    BodyIsQuiet(e, depth + 1);
    BracketedPasses(body, rest, depth, Hidden(e), depth + 1 + Opens(e.id, false) + OpensInKeys(e.params));
    Reassociate("[", body, "]", rest);
  }

  /** In front of s at this depth, the data ends as it would n characters on, in
      front of rest at depth d. */
  ghost predicate EndsAs(depth: nat, s: string, d: nat, rest: string, n: nat) {
    DataLength(Scan(false, false, depth), s) == After(d, rest, n)
  }

  lemma EndsAsTwice(depth: nat, s: string, d: nat, text: string, n: nat, d': nat, rest: string, n': nat)
    requires text != "" && text[0] == '['
    requires EndsAs(depth, s, d, text, n) && EndsAs(d, text, d', rest, n')
    ensures EndsAs(depth, s, d', rest, n + n')
  {
    AfterShifted(d', rest, n', n);
  }

  /** A printed element, as far as the scan is concerned: its text, and by how
      much it leaves the scan too deep. */
  datatype Piece = Piece(text: string, excess: nat)

  ghost predicate PassesAt(p: Piece, depth: nat, rest: string) {
    EndsAs(depth, p.text + rest, depth + p.excess, rest, |p.text|)
  }

  ghost predicate Passes(p: Piece) {
    p.text != "" && p.text[0] == '[' && forall depth: nat, rest: string :: PassesAt(p, depth, rest)
  }

  function Texts(ps: seq<Piece>, rest: string): string {
    if ps == [] then rest else ps[0].text + Texts(ps[1..], rest)
  }

  function Sum(ps: seq<Piece>): nat {
    if ps == [] then 0 else ps[0].excess + Sum(ps[1..])
  }

  function Size(ps: seq<Piece>): nat {
    if ps == [] then 0 else |ps[0].text| + Size(ps[1..])
  }

  lemma {:induction false} PiecesPass(ps: seq<Piece>, depth: nat, rest: string)
    requires ps != [] && forall p :: p in ps ==> Passes(p)
    requires rest == "" || rest[0] != '['
    ensures EndsAs(depth, Texts(ps, rest), depth + Sum(ps), rest, Size(ps))
    decreases |ps|
  {
    var p, more := ps[0], ps[1..];
    var text := Texts(more, rest);
    assert Passes(p) && PassesAt(p, depth, text);
    if more != [] {
      assert Passes(more[0]);
      PiecesPass(more, depth + p.excess, rest);
      EndsAsTwice(depth, p.text + text, depth + p.excess, text, |p.text|, depth + p.excess + Sum(more), rest, Size(more));
    }
  }

  function Pieces(es: seq<Element>): (ps: seq<Piece>)
    ensures |ps| == |es|
  {
    if es == [] then [] else [Piece(PrintElement(es[0]), Excess(es[0]))] + Pieces(es[1..])
  }

  lemma {:induction false} PiecesArePrinted(es: seq<Element>, rest: string)
    ensures var ps := Pieces(es);
            && Texts(ps, rest) == PrintElements(es) + rest
            && Sum(ps) == TotalExcess(es) && Size(ps) == |PrintElements(es)|
  {
    if es != [] {
      PiecesArePrinted(es[1..], rest);
      Seqs.Assoc(PrintElement(es[0]), PrintElements(es[1..]), rest);
    }
  }

  lemma ElementIsPiece(e: Element)
    ensures Passes(Piece(PrintElement(e), Excess(e)))
  {
    var p := Piece(PrintElement(e), Excess(e));
    forall depth: nat, rest: string ensures PassesAt(p, depth, rest) {
      ElementPasses(e, depth, rest);
    }
  }

  lemma {:induction false} PiecesAllPass(es: seq<Element>)
    ensures forall p :: p in Pieces(es) ==> Passes(p)
  {
    if es != [] {
      ElementIsPiece(es[0]);
      PiecesAllPass(es[1..]);
    }
  }

  /** The data ends at the end of the printed elements if they are balanced, and
      past it, or never, if they are not. */
  lemma ElementsPass(es: seq<Element>, depth: nat, rest: string)
    requires es != []
    requires rest == "" || rest[0] != '['
    ensures EndsAs(depth, PrintElements(es) + rest, depth + TotalExcess(es), rest, |PrintElements(es)|)
  {
    PiecesAllPass(es);
    PiecesPass(Pieces(es), depth, rest);
    PiecesArePrinted(es, rest);
  }

  lemma PrintsABracket(es: seq<Element>)
    requires es != []
    ensures PrintElements(es) != "" && PrintElements(es)[0] == '['
  {
    assert PrintElements(es) == PrintElement(es[0]) + PrintElements(es[1..]);
  }

  /** The message and the data come apart exactly when the names of the elements
      are balanced, or there is no message to lose. */
  lemma SplitIsExact(es: seq<Element>, msg: string)
    ensures SplitStructuredData(PrintRest(es, msg)) == (if es == [] then "" else PrintElements(es), msg)
            <==> TotalExcess(es) == 0 || msg == ""
  {
    var rest := if msg == "" then "" else " " + msg;
    if es == [] {
      var s := "-" + rest;
      TrimsToItself(s, ' ');
      assert s[1..] == rest;
    } else {
      PrintsABracket(es);
      ElementsPass(es, 0, rest);
      SplitAt(PrintElements(es), msg, rest, TotalExcess(es));
    }
  }

  /** Where the scan of bracketed data stops decides what is split off. */
  lemma SplitAt(data: string, msg: string, rest: string, excess: nat)
    requires data != "" && data[0] == '['
    requires rest == if msg == "" then "" else " " + msg
    requires EndsAs(0, data + rest, excess, rest, |data|)
    ensures SplitStructuredData(data + rest) == (data, msg) <==> excess == 0 || msg == ""
  {
    var s := data + rest;
    TrimsToItself(s, ' ');
    Seqs.Split(data, rest);
    if excess == 0 {
      assert TrimPrefix(rest, ' ') == msg;
    } else if msg != "" {
      assert |SplitStructuredData(s).0| > |data|;
    } else {
      assert s == data;
    }
  }

  // ----- splitting the data into elements ----------------------------------------------

  /** The bracketed elements of s, the one being read so far in cur. */
  function Collect(st: Scan, s: string, cur: Option<string>): seq<string>
    decreases |s|
  {
    if s == "" then []
    else
      var c, st' := s[0], Step(st, s[0]);
      if Closes(st, c) && cur.Some? then [cur.value] + Collect(st', s[1..], None)
      else if cur.None? then
        Collect(st', s[1..], if !st.escaped && !st.inQuote && c == '[' then Some("") else None)
      else Collect(st', s[1..], Some(cur.value + [c]))
  }

  function SplitElements(sd: string): seq<string> {
    Collect(START, sd, None)
  }

  function Bodies(es: seq<Element>): (bs: seq<string>)
    ensures |bs| == |es|
  {
    if es == [] then [] else [Body(es[0])] + Bodies(es[1..])
  }

  function CountVisible(es: seq<Element>): (n: nat)
    ensures n <= |es| && (n == |es| <==> forall e :: e in es ==> !Hidden(e))
  {
    if es == [] then 0
    else
      assert es == [es[0]] + es[1..];
      (if Hidden(es[0]) then 0 else 1) + CountVisible(es[1..])
  }

  lemma {:induction false} QuietCollects(st: Scan, s: string, rest: string, cur: string)
    requires Quiet(st, s)
    ensures Collect(st, s + rest, Some(cur)) == Collect(Steps(st, s), rest, Some(cur + s))
    decreases |s|
  {
    if s == "" {
      assert s + rest == rest && cur + s == cur;
    } else {
      assert (s + rest)[1..] == s[1..] + rest;
      QuietCollects(Step(st, s[0]), s[1..], rest, cur + [s[0]]);
      assert cur + [s[0]] + s[1..] == cur + s;
    }
  }

  /** What opening a bracket makes of the element being read. */
  function Opened(cur: Option<string>): string {
    match cur case None => "" case Some(s) => s + "["
  }

  /** What collecting gives after a bracket that is hidden, or that closes. */
  function Closed(text: string, hidden: bool, st: Scan, rest: string): seq<string> {
    if hidden then Collect(st, rest, Some(text + "]")) else [text] + Collect(st, rest, None)
  }

  lemma CloseCollects(hidden: bool, d: int, rest: string, text: string)
    ensures Collect(Scan(false, hidden, d), "]" + rest, Some(text))
            == Closed(text, hidden, Scan(false, false, if hidden then d else d - 1), rest)
  {
    assert ("]" + rest)[1..] == rest;
    assert Step(Scan(false, hidden, d), ']') == Scan(false, false, if hidden then d else d - 1);
  }

  lemma OpenCollects(d: int, s: string, cur: Option<string>)
    ensures Collect(Scan(false, false, d), "[" + s, cur) == Collect(Scan(false, false, d + 1), s, Some(Opened(cur)))
  {
    assert ("[" + s)[1..] == s;
    assert Step(Scan(false, false, d), '[') == Scan(false, false, d + 1);
  }

  lemma ElementCollects(e: Element, d: int, rest: string, cur: Option<string>)
    ensures Collect(Scan(false, false, d), PrintElement(e) + rest, cur)
            == Closed(Opened(cur) + Body(e), Hidden(e), Scan(false, false, d + Excess(e)), rest)
  {
    var body, close := Body(e), "]" + rest;
    Reassociate("[", body, "]", rest);
    OpenCollects(d, body + close, cur);
    BodyIsQuiet(e, d + 1);
    QuietCollects(Scan(false, false, d + 1), body, close, Opened(cur));
    CloseCollects(Hidden(e), d + 1 + Opens(e.id, false) + OpensInKeys(e.params), rest, Opened(cur) + body);
  }

  lemma {:induction false} CollectCounts(es: seq<Element>, d: int, cur: Option<string>)
    ensures |Collect(Scan(false, false, d), PrintElements(es), cur)| == CountVisible(es)
    decreases |es|
  {
    if es != [] {
      var e, more := es[0], PrintElements(es[1..]);
      ElementCollects(e, d, more, cur);
      CollectCounts(es[1..], d + Excess(e), if Hidden(e) then Some(Opened(cur) + Body(e) + "]") else None);
    }
  }

  lemma {:induction false} CollectsBodies(es: seq<Element>, d: int)
    requires CountVisible(es) == |es|
    ensures Collect(Scan(false, false, d), PrintElements(es), None) == Bodies(es)
    decreases |es|
  {
    if es != [] {
      var e, more := es[0], PrintElements(es[1..]);
      assert e in es;
      ElementCollects(e, d, more, None);
      CollectsBodies(es[1..], d + Excess(e));
      assert "" + Body(e) == Body(e);
    }
  }

  /** The elements come apart exactly when no ID hides its closing bracket. */
  lemma ElementsAreExact(es: seq<Element>)
    ensures SplitElements(PrintElements(es)) == Bodies(es) <==> forall e :: e in es ==> !Hidden(e)
  {
    CollectCounts(es, 0, None);
    if CountVisible(es) == |es| {
      CollectsBodies(es, 0);
    }
  }

  // ----- reading an element ---------------------------------------------------------------

  /** A quoted value after its opening quote, and what follows its closing one. */
  function Unquote(s: string): (r: Option<(string, string)>)
    ensures r.Some? ==> |r.value.1| < |s|
    decreases |s|
  {
    if s == "" then None
    else if s[0] == '"' then Some(("", s[1..]))
    else if s[0] == '\\' && |s| == 1 then None
    else
      var (c, rest) := if s[0] == '\\' then (s[1], s[2..]) else (s[0], s[1..]);
      match Unquote(rest)
      case None => None
      case Some((v, rest')) => Some(([c] + v, rest'))
  }

  lemma UnquotesChar(c: char, tail: string)
    requires Unquote(tail).Some?
    ensures Unquote(EscapeChar(c) + tail) == Some(([c] + Unquote(tail).value.0, Unquote(tail).value.1))
  {
    Seqs.Split(EscapeChar(c), tail);
  }

  /** Unescaping inverts escaping, for every value. */
  lemma {:induction false} UnquoteInverts(v: string, rest: string)
    ensures Unquote(Escape(v) + ("\"" + rest)) == Some((v, rest))
    decreases |v|
  {
    var end := "\"" + rest;
    if v == "" {
      assert Escape(v) + end == end && end[1..] == rest;
    } else {
      UnquoteInverts(v[1..], rest);
      UnquotesChar(v[0], Escape(v[1..]) + end);
      Seqs.Assoc(EscapeChar(v[0]), Escape(v[1..]), end);
      assert v == [v[0]] + v[1..];
    }
  }

  /** The parameters read one after another; reading stops quietly at anything
      that is not one. */
  function ReadParams(s: string, m: map<string, string>): map<string, string>
    decreases |s|
  {
    var rest := TrimLeft(s, ' ');
    if rest == "" || Index(rest, '=').None? then m
    else
      IndexIs(rest, '=');
      var eq := Index(rest, '=').value;
      var quoted := rest[eq + 1..];
      if quoted == "" || quoted[0] != '"' then m
      else match Unquote(quoted[1..])
        case None => m
        case Some((v, more)) => ReadParams(more, m[rest[..eq] := v])
  }

  function Stored(ps: seq<Param>, m: map<string, string>): map<string, string> {
    if ps == [] then m else Stored(ps[1..], m[ps[0].key := ps[0].value])
  }

  lemma ReadsOne(s: string, m: map<string, string>, key: string, quoted: string)
    requires '=' !in key && TrimLeft(s, ' ') == key + (['='] + quoted)
    requires quoted != "" && quoted[0] == '"' && Unquote(quoted[1..]).Some?
    ensures |quoted| < |s|
    ensures ReadParams(s, m) == ReadParams(Unquote(quoted[1..]).value.1, m[key := Unquote(quoted[1..]).value.0])
  {
    var text := key + (['='] + quoted);
    IndexOfFirst(key, '=', quoted);
    Seqs.Split(key, ['='] + quoted);
    assert text[|key| + 1..] == quoted;
  }

  lemma ParamText(p: Param, more: string)
    ensures PrintParam(p) + more == p.key + (['='] + (['"'] + (Escape(p.value) + ("\"" + more))))
  {
  }

  /** The text of a parameter is read as that parameter, after a space or not. */
  lemma ParamReads(p: Param, more: string, spaced: bool, m: map<string, string>)
    requires Name(p.key)
    ensures ReadParams((if spaced then " " else "") + (PrintParam(p) + more), m) == ReadParams(more, m[p.key := p.value])
  {
    var value := Escape(p.value) + ("\"" + more);
    var text := PrintParam(p) + more;
    ParamText(p, more);
    assert p.key[0] in p.key && text[0] == p.key[0];
    TrimsToItself(text, ' ');
    assert (" " + text)[1..] == text && "" + text == text;
    UnquoteInverts(p.value, more);
    assert '=' !in p.key && (['"'] + value)[1..] == value;
    ReadsOne((if spaced then " " else "") + text, m, p.key, ['"'] + value);
  }

  lemma {:induction false} ParamsRead(ps: seq<Param>, m: map<string, string>)
    requires forall p :: p in ps ==> Name(p.key)
    ensures ReadParams(PrintParams(ps), m) == Stored(ps, m)
    decreases |ps|
  {
    if ps != [] {
      ParamReads(ps[0], PrintParams(ps[1..]), true, m);
      ParamsRead(ps[1..], m[ps[0].key := ps[0].value]);
    }
  }

  function SplitElementID(elem: string): (string, map<string, string>) {
    var s := TrimSpace(elem);
    match Index(s, ' ')
    case None => (s, map[])
    case Some(sp) =>
      IndexIs(s, ' ');
      (s[..sp], ReadParams(s[sp + 1..], map[]))
  }

  lemma NothingToTrim(e: Element)
    ensures TrimSpace(Body(e)) == Body(e)
  {
    var s := Body(e);
    assert e.id[0] in e.id && s[0] == e.id[0];
    LastIsPlain(e.params);
    if e.params == [] {
      assert s == e.id && e.id[|e.id| - 1] in e.id;
    } else {
      assert s[|s| - 1] == PrintParams(e.params)[|PrintParams(e.params)| - 1];
    }
  }

  lemma {:induction false} LastIsPlain(ps: seq<Param>)
    ensures ps != [] ==> PrintParams(ps) != "" && PrintParams(ps)[|PrintParams(ps)| - 1] == '"'
    decreases |ps|
  {
    if ps != [] {
      LastIsPlain(ps[1..]);
      var first := " " + PrintParam(ps[0]);
      assert PrintParams(ps) == first + PrintParams(ps[1..]);
      assert first[|first| - 1] == '"';
    }
  }

  lemma IdSplits(id: string, rest: string)
    requires ' ' !in id
    ensures Index(id + ([' '] + rest), ' ') == Some(|id|)
    ensures (id + ([' '] + rest))[..|id|] == id && (id + ([' '] + rest))[|id| + 1..] == rest
  {
    IndexOfFirst(id, ' ', rest);
    Seqs.Split(id, [' '] + rest);
  }

  lemma FirstParamsRead(ps: seq<Param>)
    requires ps != [] && forall p :: p in ps ==> Name(p.key)
    ensures ReadParams(PrintParam(ps[0]) + PrintParams(ps[1..]), map[]) == Stored(ps, map[])
  {
    var rest := PrintParam(ps[0]) + PrintParams(ps[1..]);
    assert "" + rest == rest;
    ParamReads(ps[0], PrintParams(ps[1..]), false, map[]);
    ParamsRead(ps[1..], map[ps[0].key := ps[0].value]);
  }

  /** An element is read back as its ID and its parameters, the last of those
      that share a name. */
  lemma ElementReads(e: Element)
    ensures SplitElementID(Body(e)) == (e.id, Stored(e.params, map[]))
  {
    NothingToTrim(e);
    assert ' ' !in e.id;
    if e.params == [] {
      assert Body(e) == e.id;
      IndexIs(e.id, ' ');
    } else {
      IdSplits(e.id, PrintParam(e.params[0]) + PrintParams(e.params[1..]));
      FirstParamsRead(e.params);
    }
  }

  // ----- the attributes of a message ---------------------------------------------------------

  function Qualified(id: string, key: string): string {
    id + ("." + key)
  }

  function Unqualified(id: string, x: string): string {
    if |x| > |id| then x[|id| + 1..] else ""
  }

  function QualifiedKeys(id: string, params: map<string, string>): set<string> {
    set k | k in params :: Qualified(id, k)
  }

  function Prefixed(id: string, params: map<string, string>): Attributes {
    map x | x in QualifiedKeys(id, params) && Unqualified(id, x) in params :: Value(params[Unqualified(id, x)])
  }

  function AddElement(out: Attributes, elem: string): Attributes {
    var (id, params) := SplitElementID(elem);
    if id == "" then out
    else if params == map[] then out[id := Present]
    else out + Prefixed(id, params)
  }

  function AddElements(out: Attributes, elems: seq<string>): Attributes
    decreases |elems|
  {
    if elems == [] then out else AddElements(AddElement(out, elems[0]), elems[1..])
  }

  function ParseStructuredData(sd: string): Attributes {
    AddElements(map[], SplitElements(sd))
  }

  /** What elements mean: each parameter under its qualified name, an element
      without parameters as present, later ones replacing earlier ones. */
  function StoreParams(id: string, ps: seq<Param>, out: Attributes): Attributes
    decreases |ps|
  {
    if ps == [] then out else StoreParams(id, ps[1..], out[Qualified(id, ps[0].key) := Value(ps[0].value)])
  }

  function Store(es: seq<Element>, out: Attributes): Attributes
    decreases |es|
  {
    if es == [] then out
    else Store(es[1..], if es[0].params == [] then out[es[0].id := Present] else StoreParams(es[0].id, es[0].params, out))
  }

  lemma QualifiedKey(id: string, k: string)
    ensures Unqualified(id, Qualified(id, k)) == k
  {
  }

  lemma PrefixedHolds(id: string, m: map<string, string>, k: string)
    ensures Qualified(id, k) in Prefixed(id, m) <==> k in m
    ensures k in m ==> Prefixed(id, m)[Qualified(id, k)] == Value(m[k])
  {
    QualifiedKey(id, k);
    if k in m {
      assert Qualified(id, k) in QualifiedKeys(id, m);
    }
  }

  lemma PrefixedOnly(id: string, m: map<string, string>, x: string)
    requires x in Prefixed(id, m)
    ensures exists k :: k in m && x == Qualified(id, k)
  {
  }

  lemma PrefixedPut(id: string, m: map<string, string>, k: string, v: string, out: Attributes)
    ensures (out + Prefixed(id, m))[Qualified(id, k) := Value(v)] == out + Prefixed(id, m[k := v])
  {
    var p, p' := Prefixed(id, m), Prefixed(id, m[k := v]);
    assert p' == p[Qualified(id, k) := Value(v)] by {
      forall x ensures x in p' <==> x in p || x == Qualified(id, k) {
        PrefixedKeys(id, m, k, v, x);
      }
      forall x | x in p' ensures p'[x] == p[Qualified(id, k) := Value(v)][x] {
        PrefixedOnly(id, m[k := v], x);
        var k' :| k' in m[k := v] && x == Qualified(id, k');
        PrefixedHolds(id, m, k');
        PrefixedHolds(id, m[k := v], k');
        QualifiedKey(id, k);
        QualifiedKey(id, k');
      }
    }
  }

  lemma PrefixedKeys(id: string, m: map<string, string>, k: string, v: string, x: string)
    ensures x in Prefixed(id, m[k := v]) <==> x in Prefixed(id, m) || x == Qualified(id, k)
  {
    PrefixedHolds(id, m[k := v], k);
    if x in Prefixed(id, m[k := v]) {
      PrefixedOnly(id, m[k := v], x);
      var k' :| k' in m[k := v] && x == Qualified(id, k');
      PrefixedHolds(id, m, k');
    }
    if x in Prefixed(id, m) {
      PrefixedOnly(id, m, x);
      var k' :| k' in m && x == Qualified(id, k');
      PrefixedHolds(id, m[k := v], k');
    }
  }

  lemma {:induction false} StoredIsPrefixed(id: string, ps: seq<Param>, m: map<string, string>, out: Attributes)
    ensures StoreParams(id, ps, out + Prefixed(id, m)) == out + Prefixed(id, Stored(ps, m))
    decreases |ps|
  {
    if ps != [] {
      PrefixedPut(id, m, ps[0].key, ps[0].value, out);
      StoredIsPrefixed(id, ps[1..], m[ps[0].key := ps[0].value], out);
    }
  }

  lemma {:induction false} StoredKeeps(ps: seq<Param>, m: map<string, string>)
    ensures m != map[] || ps != [] ==> Stored(ps, m) != map[]
    decreases |ps|
  {
    if ps != [] {
      var m' := m[ps[0].key := ps[0].value];
      assert ps[0].key in m';
      StoredKeeps(ps[1..], m');
    }
  }

  lemma ElementAdds(e: Element, out: Attributes)
    ensures AddElement(out, Body(e))
            == if e.params == [] then out[e.id := Present] else StoreParams(e.id, e.params, out)
  {
    ElementReads(e);
    StoredKeeps(e.params, map[]);
    StoredIsPrefixed(e.id, e.params, map[], out);
    assert out + Prefixed(e.id, map[]) == out;
  }

  lemma {:induction false} BodiesAdd(es: seq<Element>, out: Attributes)
    ensures AddElements(out, Bodies(es)) == Store(es, out)
    decreases |es|
  {
    if es != [] {
      ElementAdds(es[0], out);
      BodiesAdd(es[1..], AddElement(out, Body(es[0])));
    }
  }

  lemma {:induction false} BalancedIsVisible(es: seq<Element>)
    requires TotalExcess(es) == 0
    ensures forall e :: e in es ==> !Hidden(e)
    decreases |es|
  {
    if es != [] {
      BalancedIsVisible(es[1..]);
      assert es == [es[0]] + es[1..];
    }
  }

  /** Structured data round-trips: printed elements with balanced names, of any
      values, come apart from any message and store exactly what they mean. */
  lemma StructuredDataRoundTrip(es: seq<Element>, msg: string)
    requires TotalExcess(es) == 0
    ensures var (sd, rest) := SplitStructuredData(PrintRest(es, msg));
            rest == msg && ParseStructuredData(sd) == Store(es, map[])
  {
    SplitIsExact(es, msg);
    BalancedIsVisible(es);
    ElementsAreExact(es);
    BodiesAdd(es, map[]);
  }

  /** Names free of '[' and of backslashes are balanced. */
  lemma {:induction false} PlainNameIsBalanced(n: string, escaped: bool)
    requires '[' !in n && '\\' !in n && (escaped ==> n != "")
    ensures Opens(n, escaped) == 0 && !EndsEscaped(n, escaped)
  {
    if n != "" {
      assert n == [n[0]] + n[1..];
      PlainNameIsBalanced(n[1..], false);
    }
  }

  predicate PlainNames(e: Element) {
    && '[' !in e.id && '\\' !in e.id
    && forall p :: p in e.params ==> '[' !in p.key && '\\' !in p.key
  }

  lemma {:induction false} PlainKeysAreBalanced(ps: seq<Param>)
    requires forall p :: p in ps ==> '[' !in p.key && '\\' !in p.key
    ensures OpensInKeys(ps) == 0
  {
    if ps != [] {
      PlainNameIsBalanced(ps[0].key, false);
      PlainKeysAreBalanced(ps[1..]);
    }
  }

  lemma {:induction false} PlainNamesAreBalanced(es: seq<Element>)
    requires forall e :: e in es ==> PlainNames(e)
    ensures TotalExcess(es) == 0
    decreases |es|
  {
    if es != [] {
      assert PlainNames(es[0]);
      PlainNameIsBalanced(es[0].id, false);
      PlainKeysAreBalanced(es[0].params);
      PlainNamesAreBalanced(es[1..]);
    }
  }

  /** The names are allowed to hold both, and then a message can be lost: the
      bracket of [a[] hides the end of the data. */
  lemma BracketInName(msg: string)
    requires msg != ""
    ensures Named(Element("a[", []))
    ensures SplitStructuredData(PrintRest([Element("a[", [])], msg)).1 != msg
            || SplitStructuredData(PrintRest([Element("a[", [])], msg)).0 != PrintElements([Element("a[", [])])
  {
    var e: Element := Element("a[", []);
    assert "a["[1..] == "[" && "["[1..] == "";
    assert Opens(e.id, false) == 1;
    assert TotalExcess([e]) == Excess(e) + TotalExcess([]);
    SplitIsExact([e], msg);
  }

  // ----- the loops of the program --------------------------------------------------------------

  method SplitOff(text: string) returns (sd: string, msg: string)
    ensures (sd, msg) == SplitStructuredData(text)
  {
    var s := TrimLeft(text, ' ');
    if s != "" && s[0] == '-' {
      return "", TrimPrefix(s[1..], ' ');
    }
    if s == "" || s[0] != '[' {
      return "", s;
    }
    var st := START;
    assert s[0..] == s;
    for i := 0 to |s|
      invariant DataLength(START, s) == Shift(DataLength(st, s[i..]), i)
    {
      var c := s[i];
      assert s[i..][1..] == s[i + 1..];
      if Closes(st, c) && st.depth == 1 && !(i + 1 < |s| && s[i + 1] == '[') {
        assert Ends(st, s[i..]);
        return s[..i + 1], TrimPrefix(s[i + 1..], ' ');
      }
      assert !Ends(st, s[i..]);
      Shifted(DataLength(Step(st, c), s[i + 1..]), 1, i);
      st := Step(st, c);
    }
    return s, "";
  }

  method CollectElements(sd: string) returns (elems: seq<string>)
    ensures elems == SplitElements(sd)
  {
    elems := [];
    var start, st := -1, START;
    assert sd[0..] == sd;
    for i := 0 to |sd|
      invariant -1 <= start <= i
      invariant SplitElements(sd)
        == elems + Collect(st, sd[i..], if start < 0 then None else Some(sd[start..i]))
    {
      var c := sd[i];
      assert sd[i..][1..] == sd[i + 1..];
      if start >= 0 {
        assert sd[start..i + 1] == sd[start..i] + [c];
      }
      if Closes(st, c) {
        if start >= 0 {
          Seqs.Assoc(elems, [sd[start..i]], Collect(Step(st, c), sd[i + 1..], None));
          elems, start := elems + [sd[start..i]], -1;
        }
      } else if !st.escaped && !st.inQuote && c == '[' && start < 0 {
        start := i + 1;
        assert sd[i + 1..i + 1] == "";
      }
      st := Step(st, c);
    }
    assert sd[|sd|..] == "";
  }

  /** The value after an opening quote: escaped says whether the last character
      was a backslash, and b is what was read. */
  function Resume(b: string, escaped: bool, s: string): Option<(string, string)> {
    if !escaped then UnquoteRest(b, s)
    else if s == "" then None
    else UnquoteRest(b + [s[0]], s[1..])
  }

  function UnquoteRest(read: string, s: string): Option<(string, string)> {
    match Unquote(s) case None => None case Some((v, rest)) => Some((read + v, rest))
  }

  lemma ResumeStep(b: string, escaped: bool, s: string)
    requires s != "" && (escaped || s[0] != '"')
    ensures Resume(b, escaped, s)
            == if !escaped && s[0] == '\\' then Resume(b, true, s[1..]) else Resume(b + [s[0]], false, s[1..])
  {
    if !escaped && s[0] != '\\' && Unquote(s[1..]).Some? {
      Seqs.Assoc(b, [s[0]], Unquote(s[1..]).value.0);
    } else if !escaped && |s| > 1 && Unquote(s[2..]).Some? {
      assert s[1..][1..] == s[2..];
      Seqs.Assoc(b, [s[1]], Unquote(s[2..]).value.0);
    }
  }

  method ReadQuoted(s: string) returns (r: Option<(string, string)>)
    ensures r == if s == "" || s[0] != '"' then None else Unquote(s[1..])
  {
    if s == "" || s[0] != '"' {
      return None;
    }
    var b, escaped := "", false;
    ResumeNothing(s[1..]);
    for i := 1 to |s|
      invariant Unquote(s[1..]) == Resume(b, escaped, s[i..])
    {
      var c := s[i];
      assert s[i..][1..] == s[i + 1..];
      if !escaped && c == '"' {
        assert b + "" == b;
        return Some((b, s[i + 1..]));
      }
      ResumeStep(b, escaped, s[i..]);
      if escaped {
        b, escaped := b + [c], false;
      } else if c == '\\' {
        escaped := true;
      } else {
        b := b + [c];
      }
    }
    return None;
  }

  lemma ResumeNothing(s: string)
    ensures Resume("", false, s) == Unquote(s)
  {
    if Unquote(s).Some? {
      assert "" + Unquote(s).value.0 == Unquote(s).value.0;
    }
  }

  method ReadElementID(elem: string) returns (id: string, params: map<string, string>)
    ensures (id, params) == SplitElementID(elem)
  {
    var s := TrimSpace(elem);
    var sp := Index(s, ' ');
    IndexIs(s, ' ');
    if sp.None? {
      return s, map[];
    }
    id, params := s[..sp.value], map[];
    var rest := s[sp.value + 1..];
    while true
      invariant (id, ReadParams(rest, params)) == SplitElementID(elem)
      decreases |rest|
    {
      var text := TrimLeft(rest, ' ');
      if text == "" {
        return;
      }
      var eq := Index(text, '=');
      IndexIs(text, '=');
      if eq.None? {
        return;
      }
      var key, quoted := text[..eq.value], text[eq.value + 1..];
      var r := ReadQuoted(quoted);
      if r.None? {
        return;
      }
      params, rest := params[key := r.value.0], r.value.1;
    }
  }

  method Flatten(sd: string) returns (out: Attributes)
    ensures out == ParseStructuredData(sd)
  {
    out := map[];
    var elems := CollectElements(sd);
    assert elems[0..] == elems;
    for i := 0 to |elems|
      invariant AddElements(out, elems[i..]) == ParseStructuredData(sd)
    {
      assert elems[i..][1..] == elems[i + 1..];
      var id, params := ReadElementID(elems[i]);
      if id == "" {
        continue;
      }
      if params == map[] {
        out := out[id := Present];
        continue;
      }
      out := PutParams(out, id, params);
    }
  }

  /** The parameters join the attributes in whatever order the map yields. */
  method PutParams(attributes: Attributes, id: string, params: map<string, string>) returns (out: Attributes)
    ensures out == attributes + Prefixed(id, params)
  {
    out := attributes;
    var rest := params.Keys;
    ghost var done: map<string, string> := map[];
    PrefixedNone(id, attributes);
    NothingLeft(params);
    while rest != {}
      invariant rest <= params.Keys && done == params - rest
      invariant out == attributes + Prefixed(id, done)
      decreases |rest|
    {
      var k :| k in rest;
      PutsOne(attributes, id, done, k, params[k], out);
      KeyLeaves(params, rest, k);
      out, rest, done := out[Qualified(id, k) := Value(params[k])], rest - {k}, done[k := params[k]];
    }
  }

  lemma NothingLeft(params: map<string, string>)
    ensures params - params.Keys == map[] && params - {} == params
  {
  }

  lemma PrefixedNone(id: string, out: Attributes)
    ensures out + Prefixed(id, map[]) == out
  {
  }

  lemma KeyLeaves(params: map<string, string>, rest: set<string>, k: string)
    requires rest <= params.Keys && k in rest
    ensures params - (rest - {k}) == (params - rest)[k := params[k]]
  {
  }

  lemma PutsOne(attributes: Attributes, id: string, done: map<string, string>, k: string, v: string, out: Attributes)
    requires out == attributes + Prefixed(id, done)
    ensures out[Qualified(id, k) := Value(v)] == attributes + Prefixed(id, done[k := v])
  {
    PrefixedPut(id, done, k, v, attributes);
  }
}
