/** Full-text search: how text becomes tokens, how the matcher looks for the
    tokens of a term, and how the store's MATCH expression does. */
module Fts {
  import opened Model
  import Seqs

  /** The letters and digits, and how they are folded. */
  datatype Alphabet = Alphabet(isWord: char -> bool, lower: char -> char) {
    predicate Lawful() {
      !isWord(' ') && !isWord('<') && !isWord('>') && isWord('n') && isWord('i') && isWord('l')
    }
  }

  type Letters = w: Alphabet | w.Lawful() witness Alphabet(c => 'a' <= c <= 'z', c => c)

  // ----- tokens ------------------------------------------------------------------

  /** The length of the run of word characters at the front. */
  function Run(w: Letters, s: string): (n: nat)
    ensures n <= |s|
    ensures forall i :: 0 <= i < n ==> w.isWord(s[i])
    ensures n < |s| ==> !w.isWord(s[n])
  {
    if s == "" || !w.isWord(s[0]) then 0 else 1 + Run(w, s[1..])
  }

  function Folded(w: Letters, s: string): (t: string)
    ensures |t| == |s|
  {
    seq(|s|, i requires 0 <= i < |s| => w.lower(s[i]))
  }

  /** The maximal runs of word characters, folded. */
  function Tokens(w: Letters, s: string): seq<string>
    decreases |s|
  {
    if s == "" then []
    else if !w.isWord(s[0]) then Tokens(w, s[1..])
    else
      var n := Run(w, s);
      [Folded(w, s[..n])] + Tokens(w, s[n..])
  }

  /** The tokens once a token was begun with b. */
  function Resume(w: Letters, b: string, s: string): seq<string> {
    if b == "" then Tokens(w, s)
    else
      var n := Run(w, s);
      [b + Folded(w, s[..n])] + Tokens(w, s[n..])
  }

  lemma ResumeWord(w: Letters, b: string, s: string)
    requires s != "" && w.isWord(s[0])
    ensures Resume(w, b, s) == Resume(w, b + [w.lower(s[0])], s[1..])
  {
    var n := Run(w, s);
    assert s[1..][..n - 1] == s[1..n] && s[1..][n - 1..] == s[n..];
    assert Folded(w, s[..n]) == [w.lower(s[0])] + Folded(w, s[1..n]);
    assert b + Folded(w, s[..n]) == b + [w.lower(s[0])] + Folded(w, s[1..n]);
    if b == "" {
      assert b + Folded(w, s[..n]) == Folded(w, s[..n]);
    }
  }

  lemma ResumeBreak(w: Letters, b: string, s: string)
    requires s == "" || !w.isWord(s[0])
    ensures Resume(w, b, s) == (if b == "" then [] else [b]) + Tokens(w, s)
    ensures s != "" ==> Tokens(w, s) == Tokens(w, s[1..])
  {
    assert b + Folded(w, s[..0]) == b;
  }

  method Tokenize(w: Letters, s: string) returns (toks: seq<string>)
    ensures toks == Tokens(w, s)
  {
    toks := [];
    var b := "";
    assert s[0..] == s;
    for i := 0 to |s|
      invariant Tokens(w, s) == toks + Resume(w, b, s[i..])
    {
      var r := s[i];
      assert s[i..][1..] == s[i + 1..];
      if w.isWord(r) {
        ResumeWord(w, b, s[i..]);
        b := b + [w.lower(r)];
      } else {
        ResumeBreak(w, b, s[i..]);
        if b != "" {
          toks, b := toks + [b], "";
        }
      }
    }
    ResumeBreak(w, b, s[|s|..]);
    if b != "" {
      toks := toks + [b];
    }
  }

  predicate Breaks(w: Letters, s: string) {
    s == "" || !w.isWord(s[0])
  }

  lemma {:induction false} RunStops(w: Letters, a: string, b: string)
    requires Breaks(w, b)
    ensures Run(w, a + b) == Run(w, a)
  {
    if a == "" {
      assert a + b == b;
    } else if w.isWord(a[0]) {
      assert (a + b)[1..] == a[1..] + b;
      RunStops(w, a[1..], b);
    }
  }

  /** No token crosses a character that is not part of a word. */
  lemma {:induction false} TokensConcat(w: Letters, a: string, b: string)
    requires Breaks(w, b)
    ensures Tokens(w, a + b) == Tokens(w, a) + Tokens(w, b)
    decreases |a|
  {
    if a == "" {
      assert a + b == b;
    } else if !w.isWord(a[0]) {
      assert (a + b)[1..] == a[1..] + b;
      TokensConcat(w, a[1..], b);
    } else {
      var n := Run(w, a);
      RunStops(w, a, b);
      assert (a + b)[..n] == a[..n] && (a + b)[n..] == a[n..] + b;
      TokensConcat(w, a[n..], b);
    }
  }

  lemma TokensSpaced(w: Letters, a: string, b: string)
    ensures Tokens(w, a + (" " + b)) == Tokens(w, a) + Tokens(w, b)
  {
    TokensConcat(w, a, " " + b);
    assert (" " + b)[1..] == b;
  }

  // ----- the text of an event --------------------------------------------------------

  /** An order in which an iteration over the attributes may visit the keys. */
  ghost predicate Listing(keys: seq<string>, attributes: map<string, Value>) {
    && (forall i, j :: 0 <= i < j < |keys| ==> keys[i] != keys[j])
    && (forall k :: k in keys <==> k in attributes)
  }

  /** How fmt prints a value, and how the matcher renders it: they differ on
      nil. */
  function Printed(v: Value): string {
    match v
    case Null => "<nil>"
    case Bool(b) => if b then "true" else "false"
    case Str(s) => s
    case Num(_, printed, _) => printed
  }

  function Stringify(v: Value): string {
    if v.Null? then "" else Printed(v)
  }

  function AttrPiece(k: string, v: Value): string {
    " " + (k + (" " + Printed(v)))
  }

  function AttrText(keys: seq<string>, attributes: map<string, Value>): string
    requires forall k :: k in keys ==> k in attributes
  {
    if keys == [] then ""
    else AttrPiece(keys[0], attributes[keys[0]]) + AttrText(keys[1..], attributes)
  }

  /** The text the store indexes. */
  function FtsText(e: LogEvent, keys: seq<string>): string
    requires Listing(keys, e.attributes)
  {
    e.message + (" " + (e.raw + (" " + (e.service + (" " + (e.source + AttrText(keys, e.attributes)))))))
  }

  function AttrTokens(w: Letters, keys: seq<string>, attributes: map<string, Value>): seq<string>
    requires forall k :: k in keys ==> k in attributes
  {
    if keys == [] then []
    else
      Tokens(w, keys[0]) + Tokens(w, Stringify(attributes[keys[0]]))
      + AttrTokens(w, keys[1..], attributes)
  }

  /** The tokens the matcher searches. */
  function FtsTokens(w: Letters, e: LogEvent, keys: seq<string>): seq<string>
    requires Listing(keys, e.attributes)
  {
    Tokens(w, e.message) + Tokens(w, e.raw) + Tokens(w, e.service) + Tokens(w, e.source)
    + AttrTokens(w, keys, e.attributes)
  }

  lemma {:induction false} AttrTextSnoc(keys: seq<string>, k: string, attributes: map<string, Value>)
    requires k in attributes && forall k' :: k' in keys ==> k' in attributes
    ensures AttrText(keys + [k], attributes) == AttrText(keys, attributes) + AttrPiece(k, attributes[k])
  {
    if keys == [] {
      assert [k][1..] == [];
    } else {
      assert (keys + [k])[1..] == keys[1..] + [k];
      AttrTextSnoc(keys[1..], k, attributes);
    }
  }

  lemma HeadText(m: string, r: string, s: string, c: string, rest: string)
    ensures m + " " + r + " " + s + " " + c + rest == m + (" " + (r + (" " + (s + (" " + (c + rest))))))
  {
  }

  lemma PieceText(head: string, text: string, k: string, v: string)
    ensures head + text + " " + k + " " + v == head + (text + (" " + (k + (" " + v))))
  {
  }

  method WriteFtsText(e: LogEvent, keys: seq<string>) returns (b: string)
    requires Listing(keys, e.attributes)
    ensures b == FtsText(e, keys)
  {
    b := e.message;
    b := b + " ";
    b := b + e.raw;
    b := b + " ";
    b := b + e.service;
    b := b + " ";
    b := b + e.source;
    ghost var head := b;
    HeadText(e.message, e.raw, e.service, e.source, AttrText(keys, e.attributes));
    assert FtsText(e, keys) == head + AttrText(keys, e.attributes);
    b := WriteAttrText(b, keys, e.attributes);
  }

  method WriteAttrText(head: string, keys: seq<string>, attributes: map<string, Value>) returns (b: string)
    requires forall k :: k in keys ==> k in attributes
    ensures b == head + AttrText(keys, attributes)
  {
    b := head;
    assert keys[..0] == [];
    for i := 0 to |keys|
      invariant b == head + AttrText(keys[..i], attributes)
    {
      var k := keys[i];
      PieceText(head, AttrText(keys[..i], attributes), k, Printed(attributes[k]));
      AttrTextSnoc(keys[..i], k, attributes);
      assert keys[..i + 1] == keys[..i] + [k];
      b := b + " ";
      b := b + k;
      b := b + " ";
      b := b + Printed(attributes[k]);
    }
    assert keys[..|keys|] == keys;
  }

  // ----- the index tokenizes to what the matcher searches ------------------------------

  function Nulls(keys: seq<string>, attributes: map<string, Value>): nat
    requires forall k :: k in keys ==> k in attributes
  {
    if keys == [] then 0
    else (if attributes[keys[0]].Null? then 1 else 0) + Nulls(keys[1..], attributes)
  }

  lemma NilIsAToken(w: Letters)
    ensures |Tokens(w, "<nil>")| == 1 && |Tokens(w, "")| == 0
  {
    var s := "<nil>";
    var t := s[1..];
    assert t[0] == 'n' && t[1..][0] == 'i' && t[2..][0] == 'l' && t[3..][0] == '>';
    assert t[1..][1..] == t[2..] && t[2..][1..] == t[3..];
    assert Run(w, t[2..]) == 1;
    assert Run(w, t) == 3;
    assert Tokens(w, t[3..]) == Tokens(w, t[3..][1..]);
  }

  lemma {:induction false} AttrTextTokens(w: Letters, keys: seq<string>, attributes: map<string, Value>)
    requires forall k :: k in keys ==> k in attributes
    ensures Breaks(w, AttrText(keys, attributes))
    ensures var toks := Tokens(w, AttrText(keys, attributes));
            && |toks| == |AttrTokens(w, keys, attributes)| + Nulls(keys, attributes)
            && (Nulls(keys, attributes) == 0 ==> toks == AttrTokens(w, keys, attributes))
  {
    if keys != [] {
      var k, v := keys[0], attributes[keys[0]];
      AttrTextTokens(w, keys[1..], attributes);
      TokensConcat(w, AttrPiece(k, v), AttrText(keys[1..], attributes));
      assert AttrPiece(k, v) == "" + AttrPiece(k, v);
      TokensSpaced(w, "", k + (" " + Printed(v)));
      TokensSpaced(w, k, Printed(v));
      NilIsAToken(w);
    }
  }

  /** The tokens of the indexed text are the tokens the matcher searches,
      exactly when no attribute is null. */
  lemma TextTokens(w: Letters, e: LogEvent, keys: seq<string>)
    requires Listing(keys, e.attributes)
    ensures Tokens(w, FtsText(e, keys)) == FtsTokens(w, e, keys)
            <==> Nulls(keys, e.attributes) == 0
  {
    var attrs := AttrText(keys, e.attributes);
    AttrTextTokens(w, keys, e.attributes);
    TokensConcat(w, e.source, attrs);
    TokensSpaced(w, e.service, e.source + attrs);
    TokensSpaced(w, e.raw, e.service + (" " + (e.source + attrs)));
    TokensSpaced(w, e.message, e.raw + (" " + (e.service + (" " + (e.source + attrs)))));
    FourParts(Tokens(w, e.message), Tokens(w, e.raw), Tokens(w, e.service), Tokens(w, e.source),
              Tokens(w, attrs));
  }

  lemma FourParts<T>(a: seq<T>, b: seq<T>, c: seq<T>, d: seq<T>, rest: seq<T>)
    ensures a + (b + (c + (d + rest))) == a + b + c + d + rest
  {
  }

  // ----- phrases -----------------------------------------------------------------------

  /** The phrase occurs at i: whole tokens, the last of them as a prefix. */
  predicate PhraseAt(have: seq<string>, want: seq<string>, i: nat)
    requires want != []
  {
    && i + |want| <= |have|
    && (forall j :: 0 <= j < |want| - 1 ==> have[i + j] == want[j])
    && want[|want| - 1] <= have[i + |want| - 1]
  }

  ghost predicate Occurs(have: seq<string>, want: seq<string>) {
    want != [] && exists i: nat :: PhraseAt(have, want, i)
  }

  method ContainsTokens(have: seq<string>, want: seq<string>) returns (found: bool)
    requires want != []
    ensures found <==> Occurs(have, want)
  {
    if |want| > |have| {
      return false;
    }
    var last := |want| - 1;
    var i := 0;
    while i + |want| <= |have|
      invariant forall k :: 0 <= k < i ==> !PhraseAt(have, want, k)
    {
      var same := true;
      for j := 0 to last
        invariant same
        invariant forall k :: 0 <= k < j ==> have[i + k] == want[k]
      {
        if have[i + j] != want[j] {
          same := false;
          break;
        }
      }
      if same && want[last] <= have[i + last] {
        assert PhraseAt(have, want, i);
        return true;
      }
      i := i + 1;
    }
    return false;
  }

  method TermMatchesTokens(w: Letters, have: seq<string>, term: string) returns (found: bool)
    ensures found <==> Occurs(have, Tokens(w, term))
  {
    var want := Tokenize(w, term);
    if want == [] {
      return false;
    }
    found := ContainsTokens(have, want);
  }

  // ----- the MATCH expression ------------------------------------------------------------

  function DoubledChar(c: char): string {
    if c == '"' then [c, c] else [c]
  }

  function Doubled(t: string): string {
    if t == "" then "" else DoubledChar(t[0]) + Doubled(t[1..])
  }

  function Phrase(t: string): string {
    ['"'] + Doubled(t) + ['"', '*']
  }

  const AND: string := " AND "

  function MatchExpr(terms: seq<string>): string
    requires terms != []
  {
    if |terms| == 1 then Phrase(terms[0]) else Phrase(terms[0]) + (AND + MatchExpr(terms[1..]))
  }

  /** FTS5's reading of a quoted string after its opening quote: the string and
      what follows it. */
  function ReadQuoted(s: string): (r: Option<(string, string)>)
    ensures r.Some? ==> |r.value.1| < |s|
  {
    if s == "" then None
    else if s[0] == '"' && (|s| == 1 || s[1] != '"') then Some(("", s[1..]))
    else
      match ReadQuoted(if s[0] == '"' then s[2..] else s[1..])
      case None => None
      case Some((t, rest)) => Some(([s[0]] + t, rest))
  }

  /** FTS5's reading of prefix phrases joined by AND. */
  function ReadMatch(s: string): Option<seq<string>>
    decreases |s|
  {
    if s == "" || s[0] != '"' then None
    else match ReadQuoted(s[1..])
      case None => None
      case Some((t, rest)) =>
        if rest == "*" then Some([t])
        else if rest != "" && rest[0] == '*' && AND <= rest[1..] then
          match ReadMatch(rest[1 + |AND|..])
          case None => None
          case Some(ts) => Some([t] + ts)
        else None
  }

  lemma {:induction false} QuotedReads(t: string, rest: string)
    requires rest != "" && rest[0] != '"'
    ensures ReadQuoted(Doubled(t) + (['"'] + rest)) == Some((t, rest))
  {
    var end := ['"'] + rest;
    if t == "" {
      assert Doubled(t) + end == end && end[1..] == rest;
    } else {
      var d, tail := DoubledChar(t[0]), Doubled(t[1..]) + end;
      QuotedReads(t[1..], rest);
      Seqs.Assoc(d, Doubled(t[1..]), end);
      Seqs.Split(d, tail);
      QuotedChar(t[0], tail);
      assert t == [t[0]] + t[1..];
    }
  }

  lemma QuotedChar(c: char, tail: string)
    requires tail != "" && ReadQuoted(tail).Some?
    ensures var (t, rest) := ReadQuoted(tail).value; ReadQuoted(DoubledChar(c) + tail) == Some(([c] + t, rest))
  {
    Seqs.Split(DoubledChar(c), tail);
  }

  lemma PhraseReads(t: string, more: string)
    ensures var s := Phrase(t) + more; s != "" && s[0] == '"' && ReadQuoted(s[1..]) == Some((t, "*" + more))
  {
    var s := Phrase(t) + more;
    QuotedReads(t, "*" + more);
    assert s[1..] == Doubled(t) + (['"'] + ("*" + more));
  }

  /** Whatever the terms contain, FTS5 reads back exactly the terms. */
  lemma {:induction false} MatchExprReads(terms: seq<string>)
    requires terms != []
    ensures ReadMatch(MatchExpr(terms)) == Some(terms)
  {
    var t := terms[0];
    if |terms| == 1 {
      PhraseReads(t, "");
      assert Phrase(t) + "" == Phrase(t) && "*" + "" == "*";
      assert terms == [t];
    } else {
      var rest := MatchExpr(terms[1..]);
      PhraseReads(t, AND + rest);
      MatchExprReads(terms[1..]);
      var after := "*" + (AND + rest);
      assert after[1..] == AND + rest;
      Seqs.Split(AND, rest);
      assert after[1 + |AND|..] == rest;
      assert terms == [t] + terms[1..];
    }
  }

  /** An indexed text is selected by a MATCH expression. */
  ghost predicate Selects(w: Letters, expr: string, text: string) {
    var terms := ReadMatch(expr);
    terms.Some? && forall t :: t in terms.value ==> Occurs(Tokens(w, text), Tokens(w, t))
  }

  /** The in-memory rule: every term occurs among the tokens of the event. */
  ghost predicate TermsMatch(w: Letters, terms: seq<string>, have: seq<string>) {
    forall t :: t in terms ==> Occurs(have, Tokens(w, t))
  }

  /** On an event without null attributes, search selects the indexed text
      exactly when the matcher accepts the event, whatever the terms. */
  lemma TermsAgree(w: Letters, terms: seq<string>, e: LogEvent, keys: seq<string>)
    requires terms != [] && Listing(keys, e.attributes)
    requires forall k :: k in keys ==> !e.attributes[k].Null?
    ensures Selects(w, MatchExpr(terms), FtsText(e, keys)) <==> TermsMatch(w, terms, FtsTokens(w, e, keys))
  {
    MatchExprReads(terms);
    NoNulls(keys, e.attributes);
    TextTokens(w, e, keys);
  }

  lemma {:induction false} NoNulls(keys: seq<string>, attributes: map<string, Value>)
    requires forall k :: k in keys ==> k in attributes
    ensures Nulls(keys, attributes) == 0 <==> forall k :: k in keys ==> !attributes[k].Null?
  {
    if keys != [] {
      NoNulls(keys[1..], attributes);
      assert forall k :: k in keys <==> k == keys[0] || k in keys[1..];
    }
  }

  // ----- the order of the attributes -------------------------------------------------------

  ghost predicate FromAttribute(w: Letters, attributes: map<string, Value>, k: string, t: string) {
    k in attributes && (t in Tokens(w, k) || t in Tokens(w, Stringify(attributes[k])))
  }

  lemma {:induction false} AttrTokensHold(w: Letters, keys: seq<string>, attributes: map<string, Value>, t: string)
    requires forall k :: k in keys ==> k in attributes
    ensures t in AttrTokens(w, keys, attributes)
            <==> exists k :: k in keys && FromAttribute(w, attributes, k, t)
  {
    if keys != [] {
      var k0, rest := keys[0], keys[1..];
      AttrTokensHold(w, rest, attributes, t);
      assert forall k :: k in keys <==> k == k0 || k in rest;
      assert t in AttrTokens(w, keys, attributes)
        <==> FromAttribute(w, attributes, k0, t) || t in AttrTokens(w, rest, attributes);
    }
  }

  /** Map iteration visits the attributes in any order: a term of one token is
      found, or not, whatever the order. */
  lemma OneTokenInAnyOrder(w: Letters, e: LogEvent, keys: seq<string>, keys': seq<string>, term: string)
    requires Listing(keys, e.attributes) && Listing(keys', e.attributes)
    requires |Tokens(w, term)| == 1
    ensures Occurs(FtsTokens(w, e, keys), Tokens(w, term)) <==> Occurs(FtsTokens(w, e, keys'), Tokens(w, term))
  {
    if Occurs(FtsTokens(w, e, keys), Tokens(w, term)) {
      OneTokenMoves(w, e, keys, keys', term);
    }
    if Occurs(FtsTokens(w, e, keys'), Tokens(w, term)) {
      OneTokenMoves(w, e, keys', keys, term);
    }
  }

  lemma SameTokens(w: Letters, e: LogEvent, keys: seq<string>, keys': seq<string>, t: string)
    requires Listing(keys, e.attributes) && Listing(keys', e.attributes)
    ensures t in FtsTokens(w, e, keys) ==> t in FtsTokens(w, e, keys')
  {
    AttrTokensHold(w, keys, e.attributes, t);
    AttrTokensHold(w, keys', e.attributes, t);
  }

  lemma OneTokenMoves(w: Letters, e: LogEvent, keys: seq<string>, keys': seq<string>, term: string)
    requires Listing(keys, e.attributes) && Listing(keys', e.attributes)
    requires |Tokens(w, term)| == 1
    requires Occurs(FtsTokens(w, e, keys), Tokens(w, term))
    ensures Occurs(FtsTokens(w, e, keys'), Tokens(w, term))
  {
    var have, have', want := FtsTokens(w, e, keys), FtsTokens(w, e, keys'), Tokens(w, term);
    var i: nat :| PhraseAt(have, want, i);
    SameTokens(w, e, keys, keys', have[i]);
    var i' :| 0 <= i' < |have'| && have'[i'] == have[i];
    assert PhraseAt(have', want, i');
  }

  // Terms of several tokens: when the order of the attributes decides, and when
  // it does not.

  /** The tokens before those of the attributes. */
  function HeadTokens(w: Letters, e: LogEvent): seq<string> {
    Tokens(w, e.message) + Tokens(w, e.raw) + Tokens(w, e.service) + Tokens(w, e.source)
  }

  function TokensOfAttr(w: Letters, e: LogEvent, k: string): seq<string>
    requires k in e.attributes
  {
    Tokens(w, k) + Tokens(w, Stringify(e.attributes[k]))
  }

  ghost predicate WithinOneAttr(w: Letters, e: LogEvent, want: seq<string>) {
    exists k :: k in e.attributes && Occurs(TokensOfAttr(w, e, k), want)
  }

  ghost predicate InEvent(w: Letters, e: LogEvent, t: string) {
    t in HeadTokens(w, e) || exists k :: FromAttribute(w, e.attributes, k, t)
  }

  /** A word of the phrase, other than the last, is nowhere in the event. */
  ghost predicate MissesWord(w: Letters, e: LogEvent, want: seq<string>) {
    exists i :: 0 <= i < |want| - 1 && !InEvent(w, e, want[i])
  }

  /** The order of the attributes cannot matter to this term: it is one word, there
      are not two attributes, the phrase is in the text before them or inside one
      of them, or a word of it is missing altogether. */
  ghost predicate Steady(w: Letters, e: LogEvent, term: string) {
    var want := Tokens(w, term);
    |want| <= 1 || |e.attributes| <= 1 || Occurs(HeadTokens(w, e), want) || WithinOneAttr(w, e, want)
    || MissesWord(w, e, want)
  }

  lemma OccursInside(a: seq<string>, b: seq<string>, c: seq<string>, want: seq<string>)
    requires Occurs(b, want)
    ensures Occurs(a + b + c, want)
  {
    var i: nat :| PhraseAt(b, want, i);
    var have := a + b + c;
    assert forall j :: 0 <= j < |b| ==> have[|a| + j] == b[j];
    assert PhraseAt(have, want, |a| + i);
  }

  lemma {:induction false} AttrIsInside(w: Letters, e: LogEvent, keys: seq<string>, k: string)
    returns (before: seq<string>, after: seq<string>)
    requires (forall x :: x in keys ==> x in e.attributes) && k in keys
    ensures AttrTokens(w, keys, e.attributes) == before + TokensOfAttr(w, e, k) + after
  {
    if keys[0] == k {
      before, after := [], AttrTokens(w, keys[1..], e.attributes);
    } else {
      before, after := AttrIsInside(w, e, keys[1..], k);
      before := TokensOfAttr(w, e, keys[0]) + before;
    }
  }

  lemma FtsTokensAre(w: Letters, e: LogEvent, keys: seq<string>)
    requires Listing(keys, e.attributes)
    ensures FtsTokens(w, e, keys) == HeadTokens(w, e) + AttrTokens(w, keys, e.attributes)
  {
  }

  lemma PhraseIsFound(w: Letters, e: LogEvent, keys: seq<string>, want: seq<string>)
    requires Listing(keys, e.attributes)
    requires Occurs(HeadTokens(w, e), want) || WithinOneAttr(w, e, want)
    ensures Occurs(FtsTokens(w, e, keys), want)
  {
    var head, attrs := HeadTokens(w, e), AttrTokens(w, keys, e.attributes);
    FtsTokensAre(w, e, keys);
    if Occurs(head, want) {
      OccursInside([], head, attrs, want);
      assert [] + head == head;
    } else {
      var k :| k in e.attributes && Occurs(TokensOfAttr(w, e, k), want);
      var before, after := AttrIsInside(w, e, keys, k);
      OccursInside(head + before, TokensOfAttr(w, e, k), after, want);
      JoinedFour(head, before, TokensOfAttr(w, e, k), after);
    }
  }

  lemma JoinedFour<T>(a: seq<T>, b: seq<T>, c: seq<T>, d: seq<T>)
    ensures a + (b + c + d) == a + b + c + d
  {
  }

  lemma MissingIsNotFound(w: Letters, e: LogEvent, keys: seq<string>, want: seq<string>)
    requires Listing(keys, e.attributes) && MissesWord(w, e, want)
    ensures !Occurs(FtsTokens(w, e, keys), want)
  {
    var have := FtsTokens(w, e, keys);
    var j :| 0 <= j < |want| - 1 && !InEvent(w, e, want[j]);
    AttrTokensHold(w, keys, e.attributes, want[j]);
    FtsTokensAre(w, e, keys);
    assert want[j] !in have;
    forall i: nat ensures !PhraseAt(have, want, i) {
      assert i + j < |have| ==> have[i + j] in have;
    }
  }

  lemma FewListings(keys: seq<string>, keys': seq<string>, attributes: map<string, Value>)
    requires Listing(keys, attributes) && Listing(keys', attributes) && |attributes| <= 1
    ensures keys == keys'
  {
    if |attributes| == 0 {
      FirstIsIn(keys);
      FirstIsIn(keys');
    } else {
      var k :| k in attributes;
      assert attributes.Keys == {k} by {
        assert |attributes.Keys - {k}| == 0;
      }
      OnlyListing(keys, k);
      OnlyListing(keys', k);
    }
  }

  lemma FirstIsIn<T>(xs: seq<T>)
    ensures xs == [] || xs[0] in xs
  {
  }

  lemma OnlyListing(keys: seq<string>, k: string)
    requires (forall i, j :: 0 <= i < j < |keys| ==> keys[i] != keys[j]) && k in keys
    requires forall x :: x in keys ==> x == k
    ensures keys == [k]
  {
    var n := |keys|;
    assert keys[0] in keys && keys[n - 1] in keys;
  }

  /** A steady term is found, or not, in whatever order the attributes come. */
  lemma SteadyInAnyOrder(w: Letters, e: LogEvent, keys: seq<string>, keys': seq<string>, term: string)
    requires Listing(keys, e.attributes) && Listing(keys', e.attributes)
    requires Steady(w, e, term)
    ensures Occurs(FtsTokens(w, e, keys), Tokens(w, term)) <==> Occurs(FtsTokens(w, e, keys'), Tokens(w, term))
  {
    var want := Tokens(w, term);
    if |want| == 1 {
      OneTokenInAnyOrder(w, e, keys, keys', term);
    } else if |e.attributes| <= 1 {
      FewListings(keys, keys', e.attributes);
    } else if MissesWord(w, e, want) {
      MissingIsNotFound(w, e, keys, want);
      MissingIsNotFound(w, e, keys', want);
    } else if want != [] {
      PhraseIsFound(w, e, keys, want);
      PhraseIsFound(w, e, keys', want);
    }
  }

  /** Whatever the event, the answer does not depend on the order. */
  ghost predicate AnyOrder(w: Letters, term: string) {
    forall e: LogEvent, keys, keys' :: Listing(keys, e.attributes) && Listing(keys', e.attributes) ==>
      (Occurs(FtsTokens(w, e, keys), Tokens(w, term)) <==> Occurs(FtsTokens(w, e, keys'), Tokens(w, term)))
  }

  ghost predicate Word(w: Letters, s: string) {
    s != "" && forall i :: 0 <= i < |s| ==> w.isWord(s[i])
  }

  lemma WordIsToken(w: Letters, s: string)
    requires Word(w, s)
    ensures Tokens(w, s) == [Folded(w, s)]
  {
    assert Run(w, s) == |s|;
    assert s[..|s|] == s && s[|s|..] == "";
  }

  /** The first word of a term, and what follows it. */
  lemma {:induction false} FirstWord(w: Letters, s: string) returns (word: string, rest: string)
    requires Tokens(w, s) != []
    ensures Word(w, word) && Breaks(w, rest) && Tokens(w, s) == [Folded(w, word)] + Tokens(w, rest)
    decreases |s|
  {
    if !w.isWord(s[0]) {
      word, rest := FirstWord(w, s[1..]);
    } else {
      word, rest := s[..Run(w, s)], s[Run(w, s)..];
    }
  }

  /** An event of two attributes, whose keys are all its text. */
  function TwoKeys(a: string, b: string): LogEvent {
    LogEvent("", 0, "", "", "", "", "", map[a := Str(""), b := Str("")])
  }

  lemma KeysInOrder(w: Letters, e: LogEvent, a: string, b: string)
    requires e.message == e.raw == e.service == e.source == "" && a != b
    requires e.attributes.Keys == {a, b} && e.attributes[a] == e.attributes[b] == Str("")
    ensures Listing([a, b], e.attributes) && FtsTokens(w, e, [a, b]) == Tokens(w, a) + Tokens(w, b)
  {
    assert [a, b][1..] == [b] && [b][1..] == [];
    assert AttrTokens(w, [b], e.attributes) == Tokens(w, b);
    assert AttrTokens(w, [a, b], e.attributes) == Tokens(w, a) + Tokens(w, b);
    FtsTokensAre(w, e, [a, b]);
    assert HeadTokens(w, e) == [];
  }

  lemma TwoKeysTokens(w: Letters, a: string, b: string)
    requires a != b
    ensures var e := TwoKeys(a, b);
            && Listing([a, b], e.attributes) && Listing([b, a], e.attributes)
            && FtsTokens(w, e, [a, b]) == Tokens(w, a) + Tokens(w, b)
            && FtsTokens(w, e, [b, a]) == Tokens(w, b) + Tokens(w, a)
  {
    KeysInOrder(w, TwoKeys(a, b), a, b);
    KeysInOrder(w, TwoKeys(a, b), b, a);
  }

  /** A first word and the rest, one way round, are the phrase; the other way round
      only if all words are the same. */
  lemma Rotated(first: string, rest: seq<string>)
    requires rest != []
    ensures Occurs([first] + rest, [first] + rest)
    ensures Occurs(rest + [first], [first] + rest) ==> forall j :: 0 <= j < |rest| ==> rest[j] == first
  {
    var want, have := [first] + rest, rest + [first];
    assert PhraseAt(want, want, 0);
    if i: nat :| PhraseAt(have, want, i) {
      assert forall j :: 0 <= j < |rest| ==> have[0 + j] == want[j];
      AllEqual(first, rest);
    }
  }

  lemma {:induction false} AllEqual(first: string, rest: seq<string>)
    requires forall j :: 0 <= j < |rest| ==> rest[j] == ([first] + rest)[j]
    ensures forall j :: 0 <= j < |rest| ==> rest[j] == first
    decreases |rest|
  {
    if rest != [] {
      var front := rest[..|rest| - 1];
      assert forall j :: 0 <= j < |front| ==> front[j] == rest[j] && ([first] + front)[j] == ([first] + rest)[j];
      AllEqual(first, front);
    }
  }

  /** If they are, a longer word at the end completes the phrase, and at the front
      it does not. */
  lemma Lengthened(t: string, long: string, rest: seq<string>)
    requires rest != [] && t < long && forall j :: 0 <= j < |rest| ==> rest[j] == t
    ensures Occurs(rest + [long], [t] + rest) && !Occurs([long] + rest, [t] + rest)
  {
    var want := [t] + rest;
    assert PhraseAt(rest + [long], want, 0);
    forall i: nat ensures !PhraseAt([long] + rest, want, i) {
      assert i == 0 ==> ([long] + rest)[0 + 0] != want[0];
    }
  }

  lemma DoubledWord(w: Letters, s: string)
    requires Word(w, s)
    ensures Word(w, s + s) && Folded(w, s) < Folded(w, s + s)
  {
    assert Folded(w, s + s) == Folded(w, s) + Folded(w, s);
  }

  /** For every term of two words or more there is an event on which the order of
      the attributes decides. */
  lemma OrderDecides(w: Letters, term: string) returns (e: LogEvent, keys: seq<string>, keys': seq<string>)
    requires |Tokens(w, term)| > 1
    ensures Listing(keys, e.attributes) && Listing(keys', e.attributes)
    ensures Occurs(FtsTokens(w, e, keys), Tokens(w, term)) && !Occurs(FtsTokens(w, e, keys'), Tokens(w, term))
  {
    var word, rest := FirstWord(w, term);
    var t, ts := Folded(w, word), Tokens(w, rest);
    assert rest != "" && word[0] != rest[0];
    WordIsToken(w, word);
    Rotated(t, ts);
    if Occurs(ts + [t], [t] + ts) {
      DoubledWord(w, word);
      WordIsToken(w, word + word);
      Lengthened(t, Folded(w, word + word), ts);
      assert (word + word)[0] == word[0];
      TwoKeysTokens(w, rest, word + word);
      e, keys, keys' := TwoKeys(rest, word + word), [rest, word + word], [word + word, rest];
    } else {
      TwoKeysTokens(w, word, rest);
      e, keys, keys' := TwoKeys(word, rest), [word, rest], [rest, word];
    }
  }

  /** Map iteration visits the attributes in any order, and the matcher and the
      index iterate separately. They are sure to agree on a term exactly when it
      has at most one word. */
  lemma AnyOrderExactlyWhen(w: Letters, term: string)
    ensures AnyOrder(w, term) <==> |Tokens(w, term)| <= 1
  {
    if |Tokens(w, term)| > 1 {
      var e, keys, keys' := OrderDecides(w, term);
    } else {
      forall e: LogEvent, keys, keys' | Listing(keys, e.attributes) && Listing(keys', e.attributes)
        ensures Occurs(FtsTokens(w, e, keys), Tokens(w, term)) <==> Occurs(FtsTokens(w, e, keys'), Tokens(w, term))
      {
        SteadyInAnyOrder(w, e, keys, keys', term);
      }
    }
  }
}
