/** Glob patterns, run by SQLite as LIKE and by the in-memory matcher as a
    regular expression. */
module Glob {
  import opened Model
  import Seqs
  import opened Strings

  /** What a glob means: a star stands for any run of characters and every
      other character for itself, in either case. */
  ghost predicate Glob(p: string, s: string)
    decreases |p|
  {
    if p == "" then s == ""
    else if p[0] == '*' then exists k :: 0 <= k <= |s| && Glob(p[1..], s[k..])
    else s != "" && Fold(p[0]) == Fold(s[0]) && Glob(p[1..], s[1..])
  }

  // ----- SQLite ----------------------------------------------------------------

  /** SQLite's LIKE with a backslash as the escape character. */
  predicate Like(p: string, s: string)
    decreases |p|
  {
    if p == "" then s == ""
    else match p[0]
      case '%' => exists k :: 0 <= k <= |s| && Like(p[1..], s[k..])
      case '_' => s != "" && Like(p[1..], s[1..])
      case '\\' => |p| > 1 && s != "" && Fold(p[1]) == Fold(s[0]) && Like(p[2..], s[1..])
      case _ => s != "" && Fold(p[0]) == Fold(s[0]) && Like(p[1..], s[1..])
  }

  function LikeChar(c: char): string {
    match c
    case '*' => "%"
    case '%' => "\\%"
    case '_' => "\\_"
    case '\\' => "\\\\"
    case _ => [c]
  }

  function GlobToLike(p: string): string {
    if p == "" then "" else LikeChar(p[0]) + GlobToLike(p[1..])
  }

  lemma {:induction false} GlobToLikeSnoc(p: string, c: char)
    ensures GlobToLike(p + [c]) == GlobToLike(p) + LikeChar(c)
  {
    if p == "" {
      assert GlobToLike([c]) == LikeChar(c) + GlobToLike("");
    } else {
      GlobToLikeSnoc(p[1..], c);
      assert (p + [c])[1..] == p[1..] + [c];
      Seqs.Assoc(LikeChar(p[0]), GlobToLike(p[1..]), LikeChar(c));
    }
  }

  method WriteLike(glob: string) returns (b: string)
    ensures b == GlobToLike(glob)
  {
    b := "";
    for i := 0 to |glob|
      invariant b == GlobToLike(glob[..i])
    {
      GlobToLikeSnoc(glob[..i], glob[i]);
      assert glob[..i + 1] == glob[..i] + [glob[i]];
      var r := glob[i];
      match r {
        case '*' => b := b + ['%'];
        case '%' => b := b + ['\\', r];
        case '_' => b := b + ['\\', r];
        case '\\' => b := b + ['\\', r];
        case _ => b := b + [r];
      }
    }
    assert glob[..|glob|] == glob;
  }

  /** The LIKE pattern of a glob matches what the glob matches. */
  lemma {:induction false} LikeIsGlob(p: string, s: string)
    ensures Like(GlobToLike(p), s) <==> Glob(p, s)
    decreases |p|
  {
    if p != "" {
      var q, rest := GlobToLike(p), p[1..];
      assert q[|LikeChar(p[0])|..] == GlobToLike(rest);
      if p[0] == '*' {
        forall k | 0 <= k <= |s| ensures Like(q[1..], s[k..]) <==> Glob(rest, s[k..]) {
          LikeIsGlob(rest, s[k..]);
        }
      } else if s != "" {
        LikeIsGlob(rest, s[1..]);
      }
    }
  }

  // ----- regular expressions -----------------------------------------------------

  /** The part of RE2's syntax that globs need: literals, the dot, and stars. */
  datatype Atom = Lit(c: char) | Any

  datatype Piece = One(a: Atom) | Many(a: Atom)

  predicate Special(c: char) {
    c in "\\.+*?()|[]{}^$"
  }

  /** The atom at the front of an expression and the characters it takes. */
  function ReadAtom(r: string): (a: Option<(Atom, nat)>)
    requires r != ""
    ensures a.Some? ==> 0 < a.value.1 <= |r|
  {
    if r[0] == '\\' then if |r| > 1 && Special(r[1]) then Some((Lit(r[1]), 2)) else None
    else if r[0] == '.' then Some((Any, 1))
    else if Special(r[0]) then None
    else Some((Lit(r[0]), 1))
  }

  function Compile(r: string): Option<seq<Piece>>
    decreases |r|
  {
    if r == "" then Some([])
    else match ReadAtom(r)
      case None => None
      case Some((a, n)) =>
        var star := n < |r| && r[n] == '*';
        match Compile(if star then r[n + 1..] else r[n..])
        case None => None
        case Some(ps) => Some([if star then Many(a) else One(a)] + ps)
  }

  /** Without the s flag the dot does not match a newline. */
  predicate Accepts(a: Atom, c: char) {
    match a
    case Lit(d) => Fold(d) == Fold(c)
    case Any => c != '\n'
  }

  /** Whether the whole text matches, ignoring case: (?i)^ ... $. */
  predicate Matches(ps: seq<Piece>, s: string)
    decreases |ps|
  {
    if ps == [] then s == ""
    else match ps[0]
      case One(a) => s != "" && Accepts(a, s[0]) && Matches(ps[1..], s[1..])
      case Many(a) =>
        exists k :: 0 <= k <= |s| && (forall i :: 0 <= i < k ==> Accepts(a, s[i])) && Matches(ps[1..], s[k..])
  }

  /** regexp.QuoteMeta */
  function QuoteMeta(s: string): string {
    if s == "" then "" else (if Special(s[0]) then ['\\', s[0]] else [s[0]]) + QuoteMeta(s[1..])
  }

  function Segment(part: string): string {
    QuoteMeta(part) + ".*"
  }

  function Quoted(parts: seq<string>): string {
    if parts == [] then "" else Segment(parts[0]) + Quoted(parts[1..])
  }

  function GlobToRegex(p: string): string {
    TrimSuffix(Quoted(Split(p, '*')), ".*")
  }

  lemma {:induction false} QuotedSnoc(parts: seq<string>, part: string)
    ensures Quoted(parts + [part]) == Quoted(parts) + Segment(part)
  {
    if parts == [] {
      assert [part][1..] == [];
    } else {
      QuotedSnoc(parts[1..], part);
      assert (parts + [part])[1..] == parts[1..] + [part];
      Seqs.Assoc(Segment(parts[0]), Quoted(parts[1..]), Segment(part));
    }
  }

  method WriteRegex(pattern: string) returns (out: string)
    ensures out == GlobToRegex(pattern)
  {
    var parts, b := Split(pattern, '*'), "";
    for i := 0 to |parts|
      invariant b == Quoted(parts[..i])
    {
      QuotedSnoc(parts[..i], parts[i]);
      Seqs.Assoc(b, QuoteMeta(parts[i]), ".*");
      assert parts[..i + 1] == parts[..i] + [parts[i]];
      b := b + QuoteMeta(parts[i]);
      b := b + ".*";
    }
    assert parts[..|parts|] == parts;
    out := TrimSuffix(b, ".*");
  }

  /** The expression character by character, without the closing ".*". */
  function RegexOf(p: string): string {
    if p == "" then ""
    else (if p[0] == '*' then ".*" else QuoteMeta([p[0]])) + RegexOf(p[1..])
  }

  lemma QuotedFront(c: char, part: string, rest: seq<string>)
    ensures Quoted([[c] + part] + rest) == QuoteMeta([c]) + Quoted([part] + rest)
  {
    var s, tail := [c] + part, Quoted(rest);
    assert s[1..] == part && [c][1..] == "";
    assert ([s] + rest)[1..] == rest && ([part] + rest)[1..] == rest;
    Seqs.Assoc(QuoteMeta([c]), QuoteMeta(part), ".*");
    Seqs.Assoc(QuoteMeta([c]), Segment(part), tail);
  }

  lemma {:induction false} QuotedSplit(p: string)
    ensures Quoted(Split(p, '*')) == RegexOf(p) + ".*"
  {
    if p == "" {
      assert Quoted([""]) == Segment("") + Quoted([]);
    } else {
      QuotedSplit(p[1..]);
      var rest := Split(p[1..], '*');
      if p[0] == '*' {
        assert ([""] + rest)[1..] == rest;
      } else {
        QuotedFront(p[0], rest[0], rest[1..]);
        assert [rest[0]] + rest[1..] == rest;
      }
    }
  }

  lemma GlobToRegexIs(p: string)
    ensures GlobToRegex(p) == RegexOf(p)
  {
    QuotedSplit(p);
  }

  /** What the expression of a glob compiles to. */
  function Pieces(p: string): (ps: seq<Piece>)
    ensures |ps| == |p|
  {
    seq(|p|, i requires 0 <= i < |p| => if p[i] == '*' then Many(Any) else One(Lit(p[i])))
  }

  lemma StarCompiles(rest: string)
    requires Compile(rest).Some?
    ensures Compile(".*" + rest) == Some([Many(Any)] + Compile(rest).value)
  {
    var r := ".*" + rest;
    assert r[2..] == rest;
  }

  lemma QuotedCompiles(c: char, rest: string)
    requires Compile(rest).Some? && (rest != "" ==> rest[0] != '*')
    ensures QuoteMeta([c]) != "" && (c != '*' ==> QuoteMeta([c])[0] != '*')
    ensures Compile(QuoteMeta([c]) + rest) == Some([One(Lit(c))] + Compile(rest).value)
  {
    assert QuoteMeta([c]) == if Special(c) then ['\\', c] else [c];
    assert (QuoteMeta([c]) + rest)[|QuoteMeta([c])|..] == rest;
  }

  lemma {:induction false} RegexCompiles(p: string)
    ensures Compile(RegexOf(p)) == Some(Pieces(p))
    ensures RegexOf(p) != "" ==> RegexOf(p)[0] != '*'
  {
    if p != "" {
      var rest := RegexOf(p[1..]);
      RegexCompiles(p[1..]);
      assert Pieces(p) == [Pieces(p)[0]] + Pieces(p[1..]);
      if p[0] == '*' {
        StarCompiles(rest);
      } else {
        QuotedCompiles(p[0], rest);
      }
    }
  }

  /** Whatever the compiled expression matches, the glob does; on text without
      newlines the converse holds. */
  lemma {:induction false} PiecesAndGlob(p: string, s: string)
    ensures Matches(Pieces(p), s) ==> Glob(p, s)
    ensures '\n' !in s ==> Glob(p, s) ==> Matches(Pieces(p), s)
    decreases |p|
  {
    if p != "" {
      var ps, rest := Pieces(p), p[1..];
      assert ps[1..] == Pieces(rest);
      if p[0] == '*' {
        forall k | 0 <= k <= |s|
          ensures Matches(ps[1..], s[k..]) ==> Glob(rest, s[k..])
          ensures '\n' !in s ==> Glob(rest, s[k..]) ==> Matches(ps[1..], s[k..])
        {
          PiecesAndGlob(rest, s[k..]);
        }
      } else if s != "" {
        PiecesAndGlob(rest, s[1..]);
      }
    }
  }

  /** The matcher's answer for a glob. */
  predicate GlobMatch(pattern: string, s: string) {
    var re := Compile(GlobToRegex(pattern));
    re.Some? && Matches(re.value, s)
  }

  lemma GlobMatchIsGlob(p: string, s: string)
    ensures GlobMatch(p, s) ==> Glob(p, s)
    ensures '\n' !in s ==> (GlobMatch(p, s) <==> Glob(p, s))
  {
    GlobToRegexIs(p);
    RegexCompiles(p);
    PiecesAndGlob(p, s);
  }

  predicate OnlyStars(p: string) {
    forall c :: c in p ==> c == '*'
  }

  lemma {:induction false} StarsAreEmpty(p: string)
    ensures Glob(p, "") <==> OnlyStars(p)
  {
    if p != "" {
      StarsAreEmpty(p[1..]);
      var nothing := "";
      assert nothing[0..] == nothing;
      assert p[0] == '*' ==> (Glob(p, nothing) <==> Glob(p[1..], nothing[0..]));
      assert p[0] in p && forall c :: c in p <==> c == p[0] || c in p[1..];
    }
  }

  /** Only stars match the empty text. */
  lemma StarsMatchNothing(p: string)
    ensures GlobMatch(p, "") <==> OnlyStars(p)
  {
    GlobMatchIsGlob(p, "");
    StarsAreEmpty(p);
  }

  /** One glob, two engines: on a text without newlines both match exactly what
      the glob means. */
  lemma EnginesAgree(p: string, s: string)
    requires '\n' !in s
    ensures Like(GlobToLike(p), s) <==> Glob(p, s)
    ensures GlobMatch(p, s) <==> Glob(p, s)
  {
    LikeIsGlob(p, s);
    GlobMatchIsGlob(p, s);
  }

  ghost predicate AgreeOn(s: string) {
    forall p :: Like(GlobToLike(p), s) <==> GlobMatch(p, s)
  }

  /** The condition is exact: a text with a newline is matched by the lone star
      in SQL and not in memory. */
  lemma AgreeExactlyWithoutNewlines(s: string)
    ensures AgreeOn(s) <==> '\n' !in s
  {
    if '\n' !in s {
      forall p ensures Like(GlobToLike(p), s) <==> GlobMatch(p, s) {
        EnginesAgree(p, s);
      }
    } else {
      var star := "*";
      LikeIsGlob(star, s);
      assert Glob(star[1..], s[|s|..]);
      GlobToRegexIs(star);
      RegexCompiles(star);
      var rest := Pieces(star)[1..];
      assert rest == [] && Pieces(star)[0] == Many(Any);
      assert forall k :: 0 <= k <= |s| && Matches(rest, s[k..]) ==> k == |s|;
    }
  }
}
