/** Keyset pagination: pages that continue strictly after a cursor, over a store
    that may change between them. */
module Paging {
  import opened Decimals
  import opened Model
  import opened Query
  import opened Fts

  /** The sort key of an event. */
  datatype Key = Key(ts: int, id: string)

  datatype Order = Newest | Oldest

  // ----- the order of the rows -----------------------------------------------------

  predicate Above(a: Key, b: Key) {
    a.ts > b.ts || (a.ts == b.ts && Less(b.id, a.id))
  }

  /** Whether a is listed before b. */
  predicate Before(order: Order, a: Key, b: Key) {
    if order.Oldest? then Above(b, a) else Above(a, b)
  }

  lemma BeforeIsStrict(order: Order, a: Key, b: Key)
    ensures Before(order, a, b) ==> a != b && !Before(order, b, a)
    ensures a != b ==> Before(order, a, b) || Before(order, b, a)
  {
    LessIsStrict(a.id, b.id);
    LessIsStrict(b.id, a.id);
  }

  lemma BeforeIsTransitive(order: Order, a: Key, b: Key, c: Key)
    requires Before(order, a, b) && Before(order, b, c)
    ensures Before(order, a, c)
  {
    if a.ts == b.ts == c.ts {
      if order.Oldest? {
        LessIsTransitive(a.id, b.id, c.id);
      } else {
        LessIsTransitive(c.id, b.id, a.id);
      }
    }
  }

  ghost predicate Sorted(order: Order, xs: seq<Key>) {
    forall i, j :: 0 <= i < j < |xs| ==> Before(order, xs[i], xs[j])
  }

  ghost predicate First(order: Order, s: set<Key>, m: Key) {
    m in s && forall x :: x in s ==> x == m || Before(order, m, x)
  }

  lemma {:induction false} FirstExists(order: Order, s: set<Key>)
    requires s != {}
    ensures exists m :: First(order, s, m)
    decreases |s|
  {
    var a :| a in s;
    if s == {a} {
      assert First(order, s, a);
    } else {
      var rest := s - {a};
      FirstExists(order, rest);
      var m :| First(order, rest, m);
      BeforeIsStrict(order, a, m);
      var first := if Before(order, a, m) then a else m;
      forall x | x in s ensures x == first || Before(order, first, x) {
        if x != first && first == a && x != m {
          BeforeIsTransitive(order, a, m, x);
        }
      }
      assert First(order, s, first);
    }
  }

  /** The rows of a result in order: what ORDER BY lists. */
  ghost function Listed(order: Order, s: set<Key>): (xs: seq<Key>)
    ensures |xs| == |s| && forall x :: x in xs <==> x in s
    decreases |s|
  {
    if s == {} then []
    else
      FirstExists(order, s);
      var m :| First(order, s, m);
      [m] + Listed(order, s - {m})
  }

  lemma {:induction false} ListedSorted(order: Order, s: set<Key>)
    ensures Sorted(order, Listed(order, s))
    decreases |s|
  {
    if s != {} {
      var xs := Listed(order, s);
      var m := xs[0];
      assert xs[1..] == Listed(order, s - {m});
      ListedSorted(order, s - {m});
      forall i, j | 0 <= i < j < |xs| ensures Before(order, xs[i], xs[j]) {
        assert xs[j] == xs[1..][j - 1];
        if i > 0 {
          assert xs[i] == xs[1..][i - 1];
        } else {
          assert xs[j] in s - {m};
        }
      }
    }
  }

  lemma SortedTail(order: Order, xs: seq<Key>)
    requires Sorted(order, xs) && xs != []
    ensures Sorted(order, xs[1..])
    ensures forall x :: x in xs[1..] <==> x in xs && x != xs[0]
    ensures forall x :: x in xs[1..] ==> Before(order, xs[0], x)
  {
    forall x | x in xs[1..] ensures x in xs && Before(order, xs[0], x) && x != xs[0] {
      var i :| 0 <= i < |xs| - 1 && xs[1..][i] == x;
      BeforeIsStrict(order, xs[0], xs[i + 1]);
    }
    assert xs == [xs[0]] + xs[1..];
  }

  lemma NonEmpty<T>(ys: seq<T>)
    ensures ys == [] || exists y :: y in ys
  {
    assert ys == [] || ys[0] in ys;
  }

  lemma {:induction false} SortedIsUnique(order: Order, xs: seq<Key>, ys: seq<Key>)
    requires Sorted(order, xs) && Sorted(order, ys)
    requires forall x :: x in xs <==> x in ys
    ensures xs == ys
    decreases |xs|
  {
    if xs == [] {
      NonEmpty(ys);
    } else {
      assert xs[0] in ys;
      assert ys[0] in xs;
      SortedTail(order, xs);
      SortedTail(order, ys);
      BeforeIsStrict(order, xs[0], ys[0]);
      SortedIsUnique(order, xs[1..], ys[1..]);
    }
  }

  // ----- one page -------------------------------------------------------------------------

  const DEFAULT_LIMIT := 100
  const MAX_LIMIT := 5000

  function NormalLimit(limit: int): (n: nat)
    ensures 1 <= n <= MAX_LIMIT
  {
    if limit <= 0 then DEFAULT_LIMIT else if limit > MAX_LIMIT then MAX_LIMIT else limit
  }

  /** The rows strictly after a cursor. */
  ghost function Rest(order: Order, s: set<Key>, after: Option<Key>): set<Key> {
    set x | x in s && (after.Some? ==> Before(order, after.value, x))
  }

  /** The rows that ORDER BY and LIMIT give. */
  ghost function Page(order: Order, limit: nat, s: set<Key>, after: Option<Key>): seq<Key> {
    var rows := Listed(order, Rest(order, s, after));
    if |rows| <= limit then rows else rows[..limit]
  }

  /** A full page hands back a cursor: the key of its last row. */
  function NextCursor(limit: nat, page: seq<Key>): Option<Key>
    requires limit > 0
  {
    if |page| == limit then Some(page[|page| - 1]) else None
  }

  /** Where a query continues; an empty ID means from the start. */
  function Cursor(after: Key): Option<Key> {
    if after.id == "" then None else Some(after)
  }

  /** The condition that keysetCond adds, if any. */
  function KeysetCond(order: Order, key: Key): Option<Cond> {
    if key.id == "" then None
    else
      var op := if order.Oldest? then Gt else Lt;
      Some(Or(Compare(op, Timestamp, Arg(SqlInt(key.ts))),
              And(Compare(Eq, Timestamp, Arg(SqlInt(key.ts))), Compare(op, Id, Arg(SqlText(key.id))))))
  }

  function KeyOf(e: LogEvent): Key {
    Key(e.timestamp, e.id)
  }

  /** SQL selects by that condition the rows listed after the cursor. */
  lemma KeysetSelects(lib: Lib, w: Letters, row: Row, order: Order, key: Key)
    requires key.id != ""
    ensures Selected(lib, w, row, KeysetCond(order, key).value) <==> Before(order, key, KeyOf(row.event))
  {
    var op := if order.Oldest? then Gt else Lt;
    var ts, id := Arg(SqlInt(key.ts)), Arg(SqlText(key.id));
    var later, same, further := Compare(op, Timestamp, ts), Compare(Eq, Timestamp, ts), Compare(op, Id, id);
    assert TruthOf(lib, w, row, later) == SqlCompare(op, SqlInt(row.event.timestamp), SqlInt(key.ts));
    assert TruthOf(lib, w, row, same) == SqlCompare(Eq, SqlInt(row.event.timestamp), SqlInt(key.ts));
    assert TruthOf(lib, w, row, further) == SqlCompare(op, SqlText(row.event.id), SqlText(key.id));
    assert TruthOf(lib, w, row, And(same, further))
        == SqlAnd(TruthOf(lib, w, row, same), TruthOf(lib, w, row, further));
    LessIsStrict(key.id, row.event.id);
  }

  lemma PageIsPrefix(order: Order, limit: nat, s: set<Key>, after: Option<Key>)
    ensures var page, rest := Page(order, limit, s, after), Rest(order, s, after);
            && Sorted(order, page)
            && (forall x :: x in page ==> x in rest)
            && (|page| < limit ==> forall x :: x in rest ==> x in page)
            && (limit > 0 && |page| == limit ==>
                  forall x :: x in rest && x !in page ==> Before(order, page[limit - 1], x))
  {
    var rows := Listed(order, Rest(order, s, after));
    var page := Page(order, limit, s, after);
    ListedSorted(order, Rest(order, s, after));
    assert page <= rows;
    if limit > 0 && |page| == limit {
      assert forall i :: 0 <= i < limit ==> rows[i] == page[i] && page[i] in page;
      assert forall x :: x in rows && x !in page ==> exists i :: limit <= i < |rows| && rows[i] == x;
    }
  }

  // ----- following the cursors ----------------------------------------------------------------

  /** What a reader who follows the cursors sees, when page k is served from the
      k-th state of the store; it stops at a page without a cursor. */
  ghost function Followed(order: Order, limit: nat, states: seq<set<Key>>, after: Option<Key>): seq<Key>
    requires limit > 0
    decreases |states|
  {
    if states == [] then []
    else
      var page := Page(order, limit, states[0], after);
      var next := NextCursor(limit, page);
      if next.None? then page else page + Followed(order, limit, states[1..], next)
  }

  /** The reader reached a page without a cursor. */
  ghost predicate Finished(order: Order, limit: nat, states: seq<set<Key>>, after: Option<Key>)
    requires limit > 0
    decreases |states|
  {
    states != [] &&
    var next := NextCursor(limit, Page(order, limit, states[0], after));
    next.None? || Finished(order, limit, states[1..], next)
  }

  lemma SortedJoin(order: Order, xs: seq<Key>, ys: seq<Key>)
    requires xs != [] && Sorted(order, xs) && Sorted(order, ys)
    requires forall y :: y in ys ==> Before(order, xs[|xs| - 1], y)
    ensures Sorted(order, xs + ys)
  {
    var zs, last := xs + ys, xs[|xs| - 1];
    forall i, j | 0 <= i < j < |zs| ensures Before(order, zs[i], zs[j]) {
      if i < |xs| <= j {
        assert zs[j] in ys;
        if i < |xs| - 1 {
          BeforeIsTransitive(order, zs[i], last, zs[j]);
        }
      }
    }
  }

  ghost predicate AllAfter(order: Order, after: Option<Key>, xs: seq<Key>) {
    after.Some? ==> forall x :: x in xs ==> Before(order, after.value, x)
  }

  lemma AllAfterJoin(order: Order, after: Option<Key>, page: seq<Key>, tail: seq<Key>)
    requires page != [] && AllAfter(order, after, page) && AllAfter(order, Some(page[|page| - 1]), tail)
    ensures AllAfter(order, after, page + tail)
  {
    if after.Some? {
      var last := page[|page| - 1];
      assert last in page;
      forall x | x in tail ensures Before(order, after.value, x) {
        BeforeIsTransitive(order, after.value, last, x);
      }
    }
  }

  lemma {:induction false} FollowedIsSorted(order: Order, limit: nat, states: seq<set<Key>>, after: Option<Key>)
    requires limit > 0
    ensures Sorted(order, Followed(order, limit, states, after))
    ensures AllAfter(order, after, Followed(order, limit, states, after))
    decreases |states|
  {
    if states != [] {
      var page := Page(order, limit, states[0], after);
      var next := NextCursor(limit, page);
      PageIsPrefix(order, limit, states[0], after);
      if next.Some? {
        FollowedIsSorted(order, limit, states[1..], next);
        SortedJoin(order, page, Followed(order, limit, states[1..], next));
        AllAfterJoin(order, after, page, Followed(order, limit, states[1..], next));
      }
    }
  }

  /** Whatever the reader sees was in the store when its page was served. */
  lemma {:induction false} FollowedIsReal(order: Order, limit: nat, states: seq<set<Key>>, after: Option<Key>, x: Key)
    requires limit > 0 && x in Followed(order, limit, states, after)
    ensures exists s :: s in states && x in s
    decreases |states|
  {
    var page := Page(order, limit, states[0], after);
    PageIsPrefix(order, limit, states[0], after);
    assert states[0] in states;
    if x !in page {
      FollowedIsReal(order, limit, states[1..], NextCursor(limit, page), x);
    }
  }

  /** A row past the cursor is on the page or past the next cursor. */
  lemma RowIsServedOrAhead(order: Order, limit: nat, s: set<Key>, after: Option<Key>, x: Key)
    requires limit > 0 && x in s
    requires after.Some? ==> Before(order, after.value, x)
    ensures var page := Page(order, limit, s, after);
            var next := NextCursor(limit, page);
            x in page || (next.Some? && Before(order, next.value, x))
  {
    PageIsPrefix(order, limit, s, after);
    assert x in Rest(order, s, after);
  }

  /** While rows come and go between the pages, every row that is there
      throughout is seen by the time the reader finishes. */
  lemma {:induction false} NothingIsMissed(order: Order, limit: nat, states: seq<set<Key>>, after: Option<Key>, x: Key)
    requires limit > 0 && Finished(order, limit, states, after)
    requires forall s :: s in states ==> x in s
    requires after.Some? ==> Before(order, after.value, x)
    ensures x in Followed(order, limit, states, after)
    decreases |states|
  {
    var page := Page(order, limit, states[0], after);
    var next := NextCursor(limit, page);
    assert states[0] in states;
    RowIsServedOrAhead(order, limit, states[0], after, x);
    if x !in page {
      NothingIsMissed(order, limit, states[1..], next, x);
    }
  }

  /** No row is seen twice, however the store changes. */
  lemma NothingIsRepeated(order: Order, limit: nat, states: seq<set<Key>>, i: nat, j: nat)
    requires limit > 0
    requires i < j < |Followed(order, limit, states, None)|
    ensures Followed(order, limit, states, None)[i] != Followed(order, limit, states, None)[j]
  {
    var xs := Followed(order, limit, states, None);
    FollowedIsSorted(order, limit, states, None);
    BeforeIsStrict(order, xs[i], xs[j]);
  }

  ghost predicate Constant(states: seq<set<Key>>, s: set<Key>) {
    forall i :: 0 <= i < |states| ==> states[i] == s
  }

  lemma OneLess(limit: nat, n: nat)
    ensures limit * n == limit * (n - 1) + limit
  {
  }

  /** Over a store that does not change the reader finishes once the pages could
      hold every row. */
  lemma {:induction false} ReaderFinishes(order: Order, limit: nat, states: seq<set<Key>>, s: set<Key>, after: Option<Key>)
    requires limit > 0 && Constant(states, s)
    requires |Rest(order, s, after)| < limit * |states|
    ensures Finished(order, limit, states, after)
    decreases |states|
  {
    var page := Page(order, limit, states[0], after);
    var next := NextCursor(limit, page);
    if next.Some? {
      FullPageShrinks(order, limit, s, after);
      OneLess(limit, |states|);
      ReaderFinishes(order, limit, states[1..], s, next);
    }
  }

  lemma FullPageShrinks(order: Order, limit: nat, s: set<Key>, after: Option<Key>)
    requires limit > 0 && NextCursor(limit, Page(order, limit, s, after)).Some?
    ensures |Rest(order, s, NextCursor(limit, Page(order, limit, s, after)))| + limit <= |Rest(order, s, after)|
  {
    PageIsPrefix(order, limit, s, after);
    RestShrinks(order, s, after, Page(order, limit, s, after));
  }

  ghost function Elements(xs: seq<Key>): set<Key> {
    set x | x in xs
  }

  lemma {:induction false} ElementsCount(order: Order, xs: seq<Key>)
    requires Sorted(order, xs)
    ensures |Elements(xs)| == |xs|
    decreases |xs|
  {
    if xs != [] {
      SortedTail(order, xs);
      ElementsCount(order, xs[1..]);
      assert Elements(xs) == Elements(xs[1..]) + {xs[0]};
    }
  }

  lemma RestShrinks(order: Order, s: set<Key>, after: Option<Key>, page: seq<Key>)
    requires page != [] && Sorted(order, page) && forall x :: x in page ==> x in Rest(order, s, after)
    ensures |Rest(order, s, Some(page[|page| - 1]))| + |page| <= |Rest(order, s, after)|
  {
    var last := page[|page| - 1];
    assert last in page;
    var rest, rest' := Rest(order, s, after), Rest(order, s, Some(last));
    ElementsCount(order, page);
    forall x | x in rest' ensures x in rest && x !in page {
      BeforeIsStrict(order, last, x);
      if after.Some? {
        BeforeIsTransitive(order, after.value, last, x);
      }
      if x in page {
        var i :| 0 <= i < |page| && page[i] == x;
        BeforeIsStrict(order, x, last);
      }
    }
    assert rest' !! Elements(page);
    assert rest' + Elements(page) <= rest;
    SubsetCount(rest' + Elements(page), rest);
  }

  lemma SubsetCount(a: set<Key>, b: set<Key>)
    requires a <= b
    ensures |a| <= |b|
  {
    assert b == a + (b - a);
  }

  /** Over a store that does not change the pages tile the result: the reader
      sees exactly what Stream lists, in its order. */
  lemma PagesTile(order: Order, limit: nat, states: seq<set<Key>>, s: set<Key>)
    requires limit > 0 && Constant(states, s) && |s| < limit * |states|
    ensures Finished(order, limit, states, None)
    ensures Followed(order, limit, states, None) == Listed(order, s)
  {
    assert Rest(order, s, None) == s;
    ReaderFinishes(order, limit, states, s, None);
    FollowedIsSorted(order, limit, states, None);
    ListedSorted(order, s);
    var xs := Followed(order, limit, states, None);
    forall x ensures x in xs <==> x in s {
      if x in s {
        NothingIsMissed(order, limit, states, None, x);
      }
      if x in xs {
        FollowedIsReal(order, limit, states, None, x);
      }
    }
    SortedIsUnique(order, xs, Listed(order, s));
  }

  // ----- cursors ---------------------------------------------------------------------------

  /** Base64 for URLs (section 5 of RFC 4648), as far as it matters here. */
  datatype Base64 = Base64(encode: string -> string, decode: string -> Option<string>) {
    ghost predicate Lawful() {
      forall s :: decode(encode(s)) == Some(s) && (encode(s) == "" ==> s == "")
    }
  }

  type Base64Url = b: Base64 | b.Lawful() ghost witness Base64(s => s, s => Some(s))

  function EncodeCursor(b: Base64Url, key: Key): string {
    b.encode(Decimal(key.ts) + "|" + key.id)
  }

  /** The two parts around the first bar. */
  function CutAtBar(s: string): Option<(string, string)> {
    if s == "" then None
    else if s[0] == '|' then Some(("", s[1..]))
    else match CutAtBar(s[1..])
      case None => None
      case Some((l, r)) => Some(([s[0]] + l, r))
  }

  function DecodeCursor(b: Base64Url, s: string): Option<Key> {
    match b.decode(s)
    case None => None
    case Some(raw) =>
      match CutAtBar(raw)
      case None => None
      case Some((ts, id)) =>
        match ParseInt(ts)
        case None => None
        case Some(ns) => Some(Key(ns, id))
  }

  lemma {:induction false} CutJoined(l: string, r: string)
    requires '|' !in l
    ensures CutAtBar(l + ("|" + r)) == Some((l, r))
  {
    var s := l + ("|" + r);
    if l == "" {
      assert s == "|" + r;
    } else {
      CutJoined(l[1..], r);
      assert s[1..] == l[1..] + ("|" + r);
      assert l == [l[0]] + l[1..];
    }
  }

  /** A cursor decodes to the key it was made from, whatever the ID contains. */
  lemma CursorRoundTrip(b: Base64Url, key: Key)
    ensures DecodeCursor(b, EncodeCursor(b, key)) == (if IsInt64(key.ts) then Some(key) else None)
  {
    var ts := Decimal(key.ts);
    ParseIntOfDecimal(key.ts);
    CutJoined(ts, key.id);
    assert ts + "|" + key.id == ts + ("|" + key.id);
  }

  // ----- Search ----------------------------------------------------------------------------

  /** The matching rows of a store, by key. */
  ghost function Matching(lib: Lib, w: Letters, rows: set<Row>, conds: seq<Cond>): set<Key> {
    set row | row in rows && RowSelected(lib, w, row, conds) :: KeyOf(row.event)
  }

  /** The statement of searchSQL: the keyset condition joins the others. */
  function SearchConds(lib: Lib, q: Query, order: Order, after: Key): seq<Cond> {
    Where(lib, q) + (match KeysetCond(order, after) case Some(c) => [c] case None => [])
  }

  /** The rows of the statement are the rest of the query's rows after the cursor. */
  lemma SearchSelectsTheRest(lib: Lib, w: Letters, rows: set<Row>, q: Query, order: Order, after: Key)
    ensures Matching(lib, w, rows, SearchConds(lib, q, order, after))
            == Rest(order, Matching(lib, w, rows, Where(lib, q)), Cursor(after))
  {
    forall row | row in rows
      ensures RowSelected(lib, w, row, SearchConds(lib, q, order, after)) <==>
        RowSelected(lib, w, row, Where(lib, q)) && (after.id != "" ==> Before(order, after, KeyOf(row.event)))
    {
      var conds, more := Where(lib, q), SearchConds(lib, q, order, after);
      JoinedSelects(lib, w, row, conds);
      JoinedSelects(lib, w, row, more);
      if after.id != "" {
        KeysetSelects(lib, w, row, order, after);
        var c := KeysetCond(order, after).value;
        assert more == conds + [c];
        assert forall x :: x in more <==> x in conds || x == c;
      } else {
        assert more == conds;
      }
    }
  }

  /** What the database lists for the statement: ORDER BY, then LIMIT. */
  ghost function Answer(lib: Lib, w: Letters, rows: set<Row>, q: Query, order: Order, limit: nat, after: Key): seq<Key> {
    var found := Listed(order, Matching(lib, w, rows, SearchConds(lib, q, order, after)));
    if |found| <= limit then found else found[..limit]
  }

  lemma AnswerIsPage(lib: Lib, w: Letters, rows: set<Row>, q: Query, order: Order, limit: nat, after: Key)
    ensures Answer(lib, w, rows, q, order, limit, after)
            == Page(order, limit, Matching(lib, w, rows, Where(lib, q)), Cursor(after))
  {
    SearchSelectsTheRest(lib, w, rows, q, order, after);
  }

  function KeysOf(es: seq<LogEvent>): (keys: seq<Key>)
    ensures |keys| == |es|
  {
    seq(|es|, i requires 0 <= i < |es| => KeyOf(es[i]))
  }

  /** The token a full page hands back, the empty one after the last page. */
  function NextToken(b: Base64Url, limit: nat, page: seq<Key>): string
    requires limit > 0
  {
    match NextCursor(limit, page) case None => "" case Some(key) => EncodeCursor(b, key)
  }

  /** Where a request with this token continues; a bad token is an error. */
  function AfterToken(b: Base64Url, token: string): Option<Key> {
    if token == "" then Some(Key(0, "")) else DecodeCursor(b, token)
  }

  /** Collects the rows the database returns for the statement, which are the page
      after the cursor, and hands back the token of the next page. */
  method Search(b: Base64Url, limit: int, rows: seq<LogEvent>, ghost lib: Lib, ghost w: Letters, ghost store: set<Row>,
                ghost q: Query, ghost order: Order, ghost after: Key) returns (events: seq<LogEvent>, next: string)
    requires KeysOf(rows) == Answer(lib, w, store, q, order, NormalLimit(limit), after)
    ensures events == rows
    ensures var page := Page(order, NormalLimit(limit), Matching(lib, w, store, Where(lib, q)), Cursor(after));
            KeysOf(events) == page && next == NextToken(b, NormalLimit(limit), page)
  {
    AnswerIsPage(lib, w, store, q, order, NormalLimit(limit), after);
    var n := NormalLimit(limit);
    events := [];
    for i := 0 to |rows|
      invariant events == rows[..i]
    {
      events := events + [rows[i]];
    }
    next := "";
    if |events| == n && |events| > 0 {
      var last := events[|events| - 1];
      next := EncodeCursor(b, KeyOf(last));
    }
  }

  // ----- a client and its tokens ---------------------------------------------------------

  /** What a client sees that sends each token it was given with its next request,
      when request k is answered from the k-th state of the store; None is a
      token that the server refuses. */
  ghost function Client(b: Base64Url, lib: Lib, w: Letters, q: Query, order: Order, limit: nat, stores: seq<set<Row>>,
                        token: string): Option<seq<Key>>
    requires limit > 0
    decreases |stores|
  {
    if stores == [] then Some([])
    else
      match AfterToken(b, token)
      case None => None
      case Some(after) =>
        var page := Answer(lib, w, stores[0], q, order, limit, after);
        var next := NextToken(b, limit, page);
        if next == "" then Some(page)
        else match Client(b, lib, w, q, order, limit, stores[1..], next)
          case None => None
          case Some(more) => Some(page + more)
  }

  ghost function States(lib: Lib, w: Letters, q: Query, stores: seq<set<Row>>): (states: seq<set<Key>>)
    ensures |states| == |stores|
  {
    seq(|stores|, i requires 0 <= i < |stores| => Matching(lib, w, stores[i], Where(lib, q)))
  }

  /** Events have IDs, and times that fit 64 bits. */
  ghost predicate Proper(keys: set<Key>) {
    forall k :: k in keys ==> k.id != "" && IsInt64(k.ts)
  }

  /** The token for a place in the listing. */
  function TokenFor(b: Base64Url, after: Option<Key>): string {
    match after case None => "" case Some(key) => EncodeCursor(b, key)
  }

  lemma TokenReads(b: Base64Url, after: Option<Key>)
    requires after.Some? ==> after.value.id != "" && IsInt64(after.value.ts)
    ensures AfterToken(b, TokenFor(b, after)).Some? && Cursor(AfterToken(b, TokenFor(b, after)).value) == after
    ensures TokenFor(b, after) == "" <==> after.None?
  {
    if after.Some? {
      CursorRoundTrip(b, after.value);
      assert Decimal(after.value.ts) + "|" + after.value.id != "";
    }
  }

  function Joined(page: seq<Key>, more: Option<seq<Key>>): Option<seq<Key>> {
    match more case None => None case Some(xs) => Some(page + xs)
  }

  lemma ClientStep(b: Base64Url, lib: Lib, w: Letters, q: Query, order: Order, limit: nat, stores: seq<set<Row>>,
                   after: Option<Key>, s: set<Key>)
    requires limit > 0 && stores != [] && s == Matching(lib, w, stores[0], Where(lib, q)) && Proper(s)
    requires after.Some? ==> after.value.id != "" && IsInt64(after.value.ts)
    ensures var page := Page(order, limit, s, after);
            var next := NextCursor(limit, page);
            && (next.Some? ==> next.value.id != "" && IsInt64(next.value.ts))
            && Client(b, lib, w, q, order, limit, stores, TokenFor(b, after))
               == if next.None? then Some(page)
                  else Joined(page, Client(b, lib, w, q, order, limit, stores[1..], TokenFor(b, next)))
  {
    var page := Page(order, limit, s, after);
    var next := NextCursor(limit, page);
    TokenReads(b, after);
    AnswerIsPage(lib, w, stores[0], q, order, limit, AfterToken(b, TokenFor(b, after)).value);
    PageIsPrefix(order, limit, s, after);
    if next.Some? {
      assert next.value in page;
      TokenReads(b, next);
    }
  }

  /** A client who follows the tokens sees what following the cursors gives. */
  lemma {:induction false} ClientFollows(b: Base64Url, lib: Lib, w: Letters, q: Query, order: Order, limit: nat,
                                         stores: seq<set<Row>>, after: Option<Key>)
    requires limit > 0 && forall s :: s in States(lib, w, q, stores) ==> Proper(s)
    requires after.Some? ==> after.value.id != "" && IsInt64(after.value.ts)
    ensures Client(b, lib, w, q, order, limit, stores, TokenFor(b, after))
            == Some(Followed(order, limit, States(lib, w, q, stores), after))
    decreases |stores|
  {
    if stores != [] {
      var states := States(lib, w, q, stores);
      assert states[0] in states && states[1..] == States(lib, w, q, stores[1..]);
      ClientStep(b, lib, w, q, order, limit, stores, after, states[0]);
      var next := NextCursor(limit, Page(order, limit, states[0], after));
      if next.Some? {
        ClientFollows(b, lib, w, q, order, limit, stores[1..], next);
      }
    }
  }
}
