/** Functions of Go's strings package. */
module Strings {
  import opened Model

  /** ASCII case folding. */
  function Fold(c: char): char {
    if 'A' <= c <= 'Z' then (c as int + 32) as char else c
  }

  function Lower(s: string): (l: string)
    ensures |l| == |s|
  {
    seq(|s|, i requires 0 <= i < |s| => Fold(s[i]))
  }

  function TrimPrefix(s: string, c: char): string {
    if s != "" && s[0] == c then s[1..] else s
  }

  function TrimLeft(s: string, c: char): (t: string)
    ensures |t| <= |s| && (t == "" || t[0] != c)
  {
    if s != "" && s[0] == c then TrimLeft(s[1..], c) else s
  }

  /** strings.TrimSuffix */
  function TrimSuffix(s: string, suffix: string): string {
    if |suffix| <= |s| && s[|s| - |suffix|..] == suffix then s[..|s| - |suffix|] else s
  }

  /** strings.Split at a character. */
  function Split(s: string, c: char): (parts: seq<string>)
    ensures parts != []
  {
    if s == "" then [""]
    else
      var rest := Split(s[1..], c);
      if s[0] == c then [""] + rest else [[s[0]] + rest[0]] + rest[1..]
  }

  function Index(s: string, c: char): Option<nat> {
    if s == "" then None
    else if s[0] == c then Some(0)
    else match Index(s[1..], c) case None => None case Some(i) => Some(i + 1)
  }

  lemma {:induction false} IndexIs(s: string, c: char)
    ensures match Index(s, c)
            case None => c !in s
            case Some(i) => i < |s| && s[i] == c && c !in s[..i]
  {
    if s != "" {
      IndexIs(s[1..], c);
      assert s == [s[0]] + s[1..];
      var i := Index(s[1..], c);
      if s[0] != c && i.Some? {
        assert s[..i.value + 1] == [s[0]] + s[1..][..i.value];
      }
    }
  }

  lemma IndexOfFirst(l: string, c: char, r: string)
    requires c !in l
    ensures Index(l + ([c] + r), c) == Some(|l|)
  {
    var s := l + ([c] + r);
    IndexIs(s, c);
    assert s[|l|] == c && forall i :: 0 <= i < |l| ==> s[i] == l[i];
  }

  predicate IsSpace(c: char) {
    c == ' ' || '\t' <= c <= '\r' || c == '\U{85}' || c == '\U{A0}' || c == '\U{1680}'
    || '\U{2000}' <= c <= '\U{200A}' || c == '\U{2028}' || c == '\U{2029}' || c == '\U{202F}'
    || c == '\U{205F}' || c == '\U{3000}'
  }

  /** strings.TrimSpace */
  function TrimSpace(s: string): string
    decreases |s|
  {
    if s == "" then ""
    else if IsSpace(s[0]) then TrimSpace(s[1..])
    else if IsSpace(s[|s| - 1]) then TrimSpace(s[..|s| - 1])
    else s
  }

  lemma TrimsToItself(s: string, c: char)
    requires s == "" || s[0] != c
    ensures TrimLeft(s, c) == s
  {
  }
}
