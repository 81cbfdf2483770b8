/** The segmented write-ahead log: a directory of segment files and a checkpoint
    file on disk, and the process that appends, rotates, checkpoints, prunes,
    replays and recovers. Its abstract state is the list of payloads ever
    appended (record s is payload s - 1) and the persisted checkpoint. */
module Wal {
  import opened Bytes
  import opened Seqs
  import opened WalCodec

  type Segments = map<nat, seq<byte>>  // segment files by the start sequence in their name
  type History = seq<seq<byte>>

  // ----- what a directory means --------------------------------------------

  function Recs(h: History, from: nat, n: nat): (rs: seq<Record>)
    requires 1 <= from && from + n <= |h| + 1
    ensures |rs| == n
  {
    seq(n, i requires 0 <= i < n => Record(from + i, h[from + i - 1]))
  }

  function Count(f: LawfulFormat, segs: Segments, k: nat): nat
    requires k in segs
  {
    |Scan(f, segs[k]).records|
  }

  ghost predicate HistoryFits(h: History) {
    |h| < TWO_64 && forall i :: 0 <= i < |h| ==> |h[i]| <= MAX_RECORD_BYTES
  }

  /** Segment k holds the records k, k + 1, ... of the history. */
  ghost predicate HoldsAt(f: LawfulFormat, segs: Segments, h: History, k: nat)
    requires k in segs
  {
    && 1 <= k
    && k + Count(f, segs, k) <= |h| + 1
    && Scan(f, segs[k]).records == Recs(h, k, Count(f, segs, k))
  }

  ghost predicate Intact(f: LawfulFormat, segs: Segments, k: nat)
    requires k in segs
  {
    !Scan(f, segs[k]).torn
  }

  /** Segments are disjoint, and only the newest may be empty or torn. */
  ghost predicate Before(f: LawfulFormat, segs: Segments, k: nat, k': nat)
    requires k in segs
  {
    k + Count(f, segs, k) <= k' && Count(f, segs, k) >= 1 && Intact(f, segs, k)
  }

  ghost predicate Covers(f: LawfulFormat, segs: Segments, k: nat, s: nat) {
    k in segs && k <= s < k + Count(f, segs, k)
  }

  ghost predicate Held(f: LawfulFormat, segs: Segments, s: nat) {
    exists k :: Covers(f, segs, k, s)
  }

  ghost predicate Newest(f: LawfulFormat, segs: Segments, h: History, k: nat) {
    && k in segs
    && (forall k' :: k' in segs ==> k' <= k)
    && k + Count(f, segs, k) == |h| + 1
  }

  /** What holds of the directory at every instant, whether or not a process is
      alive: every record above the persisted checkpoint p is in a segment. */
  ghost predicate DirInv(f: LawfulFormat, segs: Segments, h: History, p: nat) {
    && HistoryFits(h)
    && p <= |h|
    && (forall k {:trigger HoldsAt(f, segs, h, k)} :: k in segs ==> HoldsAt(f, segs, h, k))
    && (forall k, k' {:trigger Before(f, segs, k, k')} :: k in segs && k' in segs && k < k' ==> Before(f, segs, k, k'))
    && (forall s :: p < s <= |h| ==> Held(f, segs, s))
    && (segs != map[] ==> exists k :: Newest(f, segs, h, k))
  }

  ghost predicate Ascending(ks: seq<nat>) {
    forall i, j :: 0 <= i < j < |ks| ==> ks[i] < ks[j]
  }

  lemma AscendingAppend(ks: seq<nat>, k: nat)
    requires Ascending(ks) && forall j :: j in ks ==> j < k
    ensures Ascending(ks + [k])
  {
    assert forall i :: 0 <= i < |ks| ==> ks[i] in ks;
  }

  // ----- disk steps keep the directory invariant -------------------------------

  lemma CleanAndNonEmptyHasRecords(f: LawfulFormat, b: seq<byte>)
    requires !Scan(f, b).torn && b != []
    ensures Scan(f, b).records != []
  {
    ScanVisitsAPrefix(f, b);
  }

  /** Creating the next segment file. */
  lemma CreatedInv(f: LawfulFormat, segs: Segments, h: History, p: nat, segs': Segments)
    requires DirInv(f, segs, h, p)
    requires forall k :: k in segs ==> Count(f, segs, k) >= 1 && Intact(f, segs, k)
    requires segs' == segs[|h| + 1 := []]
    ensures |h| + 1 !in segs && DirInv(f, segs', h, p) && Newest(f, segs', h, |h| + 1)
    ensures Intact(f, segs', |h| + 1) && Count(f, segs', |h| + 1) == 0
  {
    var n := |h| + 1;
    assert forall k :: k in segs ==> HoldsAt(f, segs, h, k) && k < n;
    assert Scan(f, segs'[n]) == ScanResult([], 0, false);
    assert Recs(h, n, 0) == [];
    forall s | p < s <= |h| ensures Held(f, segs', s) {
      assert Held(f, segs, s);
      var k :| Covers(f, segs, k, s);
      assert Covers(f, segs', k, s);
    }
    forall k, k' | k in segs' && k' in segs' && k < k' ensures Before(f, segs', k, k') {
      assert k in segs && HoldsAt(f, segs, h, k);
      if k' in segs {
        assert Before(f, segs, k, k');
      }
    }
    forall k | k in segs' ensures HoldsAt(f, segs', h, k) {
      if k in segs { assert HoldsAt(f, segs, h, k); }
    }
    assert Newest(f, segs', h, n);
  }

  lemma PartScan(f: LawfulFormat, r: Record, written: nat)
    requires r.Fits() && written <= |f.encode(r)|
    ensures var s := Scan(f, f.encode(r)[..written]);
            && s.records == (if written == |f.encode(r)| then [r] else [])
            && (s.torn <==> 0 < written < |f.encode(r)|)
  {
    EncodeAllOne(f, r);
    TornTailIsExact(f, [r], written);
    assert [r][..1] == [r];
  }

  lemma RecsAppend(h: History, from: nat, n: nat, payload: seq<byte>)
    requires 1 <= from && from + n == |h| + 1
    ensures Recs(h + [payload], from, n + 1) == Recs(h, from, n) + [Record(|h| + 1, payload)]
  {
  }

  /** Writing at the end of the newest segment, all of a record or a part of
      one: the disk after an append, or after a crash at any byte of it. */
  lemma WrittenInv(f: LawfulFormat, segs: Segments, h: History, p: nat, k: nat, payload: seq<byte>,
                   written: nat, segs': Segments)
    requires DirInv(f, segs, h, p) && Newest(f, segs, h, k) && Intact(f, segs, k)
    requires |payload| <= MAX_RECORD_BYTES && |h| + 1 < TWO_64
    requires var r := Record(|h| + 1, payload);
             written <= |f.encode(r)| && segs' == segs[k := segs[k] + f.encode(r)[..written]]
    ensures var r := Record(|h| + 1, payload);
            var h' := if written == |f.encode(r)| then h + [payload] else h;
            && DirInv(f, segs', h', p) && Newest(f, segs', h', k)
            && (Intact(f, segs', k) <==> written == 0 || written == |f.encode(r)|)
            && Count(f, segs', k) == Count(f, segs, k) + |h'| - |h|
  {
    var r := Record(|h| + 1, payload);
    var h' := if written == |f.encode(r)| then h + [payload] else h;
    var n := Count(f, segs, k);
    assert HoldsAt(f, segs, h, k);
    PartScan(f, r, written);
    ScanConcat(f, segs[k], f.encode(r)[..written]);
    RecsAppend(h, k, n, payload);
    RestInv(f, segs, h, p, k, segs', h', n + |h'| - |h|);
  }

  /** Growing only the newest segment leaves every other segment as it was. */
  lemma RestInv(f: LawfulFormat, segs: Segments, h: History, p: nat, k: nat, segs': Segments, h': History, n': nat)
    requires DirInv(f, segs, h, p) && Newest(f, segs, h, k)
    requires HistoryFits(h') && h <= h' && n' == Count(f, segs, k) + |h'| - |h|
    requires k in segs' && segs' == segs[k := segs'[k]] && 1 <= k
    requires k + n' == |h'| + 1 && Scan(f, segs'[k]).records == Recs(h', k, n')
    ensures DirInv(f, segs', h', p) && Newest(f, segs', h', k)
  {
    forall j | j in segs' ensures HoldsAt(f, segs', h', j) {
      if j != k {
        assert HoldsAt(f, segs, h, j);
        assert Recs(h, j, Count(f, segs, j)) == Recs(h', j, Count(f, segs, j));
      }
    }
    forall j, j' | j in segs' && j' in segs' && j < j' ensures Before(f, segs', j, j') {
      assert Before(f, segs, j, j');
    }
    forall s | p < s <= |h'| ensures Held(f, segs', s) {
      if s <= |h| {
        assert Held(f, segs, s);
        var j :| Covers(f, segs, j, s);
        assert Covers(f, segs', j, s);
      } else {
        assert Covers(f, segs', k, s);
      }
    }
    assert Newest(f, segs', h', k);
  }

  /** Cutting the newest segment where its scan ended. */
  lemma TruncatedInv(f: LawfulFormat, segs: Segments, h: History, p: nat, k: nat, segs': Segments)
    requires DirInv(f, segs, h, p) && Newest(f, segs, h, k)
    requires Scan(f, segs[k]).end <= |segs[k]|
    requires segs' == segs[k := segs[k][..Scan(f, segs[k]).end]]
    ensures DirInv(f, segs', h, p) && Newest(f, segs', h, k) && Intact(f, segs', k)
    ensures Count(f, segs', k) == Count(f, segs, k)
  {
    assert HoldsAt(f, segs, h, k);
    ScanVisitsAPrefix(f, segs[k]);
    ScanInverts(f, Scan(f, segs[k]).records);
    RestInv(f, segs, h, p, k, segs', h, Count(f, segs, k));
  }

  /** Advancing the checkpoint, and removing segments it covers. */
  lemma PrunedInv(f: LawfulFormat, segs: Segments, h: History, p: nat, p': nat, segs': Segments)
    requires DirInv(f, segs, h, p) && p <= p' <= |h|
    requires segs'.Keys <= segs.Keys && forall k :: k in segs' ==> segs'[k] == segs[k]
    requires forall k :: k in segs && k !in segs' ==>
               k + Count(f, segs, k) <= p' + 1 && !Newest(f, segs, h, k)
    ensures DirInv(f, segs', h, p')
    ensures forall k :: Newest(f, segs, h, k) ==> Newest(f, segs', h, k)
  {
    forall k | k in segs' ensures HoldsAt(f, segs', h, k) {
      assert HoldsAt(f, segs, h, k);
    }
    forall k, k' | k in segs' && k' in segs' && k < k' ensures Before(f, segs', k, k') {
      assert Before(f, segs, k, k');
    }
    forall s | p' < s <= |h| ensures Held(f, segs', s) {
      assert Held(f, segs, s);
      var k :| Covers(f, segs, k, s);
      assert Covers(f, segs', k, s);
    }
    if segs' != map[] {
      var k :| Newest(f, segs, h, k);
      assert Newest(f, segs', h, k);
    }
  }

  // ----- replay ------------------------------------------------------------------

  /** The records of the listed segments, in order, that lie above the checkpoint. */
  function Replayed(f: LawfulFormat, segs: Segments, ks: seq<nat>, cp: nat): seq<Record>
    requires forall k :: k in ks ==> k in segs
  {
    if ks == [] then []
    else Above(Scan(f, segs[ks[0]]).records, cp) + Replayed(f, segs, ks[1..], cp)
  }

  function Above(rs: seq<Record>, cp: nat): seq<Record> {
    if rs == [] then []
    else (if rs[0].seqNo > cp then [rs[0]] else []) + Above(rs[1..], cp)
  }

  /** The records above the checkpoint among from, ..., from + n - 1. */
  function Share(h: History, from: nat, n: nat, cp: nat): seq<Record>
    requires 1 <= from && from + n <= |h| + 1
  {
    var lo := Max(from, cp + 1);
    if lo <= from + n then Recs(h, lo, from + n - lo) else []
  }

  lemma RecsHead(h: History, from: nat, n: nat)
    requires 1 <= from && from + n <= |h| + 1 && n > 0
    ensures Recs(h, from, n)[0] == Record(from, h[from - 1])
    ensures Recs(h, from, n)[1..] == Recs(h, from + 1, n - 1)
    ensures Recs(h, from, n) == [Record(from, h[from - 1])] + Recs(h, from + 1, n - 1)
  {
  }

  lemma {:induction false} AboveRecs(h: History, from: nat, n: nat, cp: nat)
    requires 1 <= from && from + n <= |h| + 1
    ensures Above(Recs(h, from, n), cp) == Share(h, from, n, cp)
    decreases n
  {
    if n > 0 {
      AboveRecs(h, from + 1, n - 1, cp);
      RecsHead(h, from, n);
      ShareHead(h, from, n, cp);
      AboveMore(Recs(h, from, n), Record(from, h[from - 1]), Recs(h, from + 1, n - 1), cp, Share(h, from + 1, n - 1, cp));
    } else {
      assert Recs(h, from, n) == [];
    }
  }

  lemma AboveMore(rs: seq<Record>, r: Record, rest: seq<Record>, cp: nat, share: seq<Record>)
    requires rs == [r] + rest && Above(rest, cp) == share
    ensures Above(rs, cp) == if r.seqNo > cp then [r] + share else share
  {
    assert rs[1..] == rest;
  }

  lemma ShareHead(h: History, from: nat, n: nat, cp: nat)
    requires 1 <= from && from + n <= |h| + 1 && n > 0
    ensures Share(h, from, n, cp)
            == if from > cp then [Record(from, h[from - 1])] + Share(h, from + 1, n - 1, cp)
               else Share(h, from + 1, n - 1, cp)
  {
    if from > cp {
      RecsHead(h, from, n);
    }
  }

  /** Every segment that may hold a record above the persisted checkpoint. */
  ghost predicate ListsLive(f: LawfulFormat, segs: Segments, p: nat, ks: seq<nat>) {
    && Ascending(ks)
    && (forall k :: k in ks ==> k in segs)
    && (forall k {:trigger Count(f, segs, k)} :: k in segs && k !in ks ==> k + Count(f, segs, k) <= p + 1)
    && (segs != map[] ==> ks != [])
  }

  /** A listed segment ends where the next one begins, above the checkpoint. */
  lemma Adjoin(f: LawfulFormat, segs: Segments, h: History, p: nat, ks: seq<nat>, i: nat)
    requires DirInv(f, segs, h, p) && ListsLive(f, segs, p, ks) && i + 1 < |ks|
    requires ks[i + 1] > p + 1
    ensures ks[i] + Count(f, segs, ks[i]) == ks[i + 1]
  {
    var s := ks[i + 1] - 1;
    assert ks[i] in segs && ks[i + 1] in segs;
    assert HoldsAt(f, segs, h, ks[i + 1]);
    assert Held(f, segs, s);
    var k :| Covers(f, segs, k, s);
    assert k in ks;
    var j :| 0 <= j < |ks| && ks[j] == k;
    assert Before(f, segs, ks[i], ks[i + 1]);
    assert j < i ==> Before(f, segs, ks[j], ks[i]);
  }

  lemma ReplayedStep(f: LawfulFormat, segs: Segments, ks: seq<nat>, i: nat, cp: nat)
    requires (forall k :: k in ks ==> k in segs) && i < |ks|
    ensures Replayed(f, segs, ks[i..], cp)
         == Above(Scan(f, segs[ks[i]]).records, cp) + Replayed(f, segs, ks[i + 1..], cp)
  {
    assert ks[i..][1..] == ks[i + 1..];
  }

  lemma SegmentShare(f: LawfulFormat, segs: Segments, h: History, p: nat, k: nat, cp: nat)
    requires DirInv(f, segs, h, p) && k in segs
    ensures 1 <= k && k + Count(f, segs, k) <= |h| + 1
    ensures Above(Scan(f, segs[k]).records, cp) == Share(h, k, Count(f, segs, k), cp)
  {
    assert HoldsAt(f, segs, h, k);
    AboveRecs(h, k, Count(f, segs, k), cp);
  }

  /** One segment's share joined to the share of the segments after it. */
  lemma JoinShares(h: History, k: nat, n: nat, k': nat, cp: nat)
    requires 1 <= k && k + n <= k' <= |h| + 1 && cp <= |h|
    requires k' > cp + 1 ==> k + n == k'
    ensures Share(h, k, n, cp) + Recs(h, Max(k', cp + 1), |h| + 1 - Max(k', cp + 1))
         == Recs(h, Max(k, cp + 1), |h| + 1 - Max(k, cp + 1))
  {
  }

  /** Exactly the records above the checkpoint from segment i on. */
  lemma {:induction false} ReplayedSuffix(f: LawfulFormat, segs: Segments, h: History, p: nat, ks: seq<nat>, i: nat, cp: nat)
    requires DirInv(f, segs, h, p) && ListsLive(f, segs, p, ks) && p <= cp <= |h|
    requires i < |ks| && Newest(f, segs, h, ks[|ks| - 1])
    ensures 1 <= ks[i] <= |h| + 1
    ensures var lo := Max(ks[i], cp + 1);
            Replayed(f, segs, ks[i..], cp) == Recs(h, lo, |h| + 1 - lo)
    decreases |ks| - i
  {
    var k := ks[i];
    SegmentShare(f, segs, h, p, k, cp);
    ReplayedStep(f, segs, ks, i, cp);
    if i + 1 < |ks| {
      ReplayedSuffix(f, segs, h, p, ks, i + 1, cp);
      assert ks[i + 1] in segs && Before(f, segs, k, ks[i + 1]);
      if ks[i + 1] > cp + 1 {
        Adjoin(f, segs, h, p, ks, i);
      }
      JoinShares(h, k, Count(f, segs, k), ks[i + 1], cp);
    }
  }

  /** The first listed segment starts no later than the first live record. */
  lemma FirstIsLow(f: LawfulFormat, segs: Segments, h: History, p: nat, ks: seq<nat>)
    requires DirInv(f, segs, h, p) && ListsLive(f, segs, p, ks) && ks != []
    requires Newest(f, segs, h, ks[|ks| - 1])
    ensures ks[0] <= p + 1
  {
    if p < |h| {
      assert Held(f, segs, p + 1);
      var k :| Covers(f, segs, k, p + 1);
      assert k in ks;
      var j :| 0 <= j < |ks| && ks[j] == k;
      assert 0 < j ==> ks[0] < ks[j];
    }
  }

  /** Replay yields exactly the records above the checkpoint, once each, in
      increasing order and with no gap. */
  lemma ReplayIsExact(f: LawfulFormat, segs: Segments, h: History, p: nat, ks: seq<nat>, cp: nat)
    requires DirInv(f, segs, h, p) && ListsLive(f, segs, p, ks) && p <= cp <= |h|
    requires ks != [] ==> Newest(f, segs, h, ks[|ks| - 1])
    ensures Replayed(f, segs, ks, cp) == Recs(h, cp + 1, |h| - cp)
  {
    if ks == [] {
      assert !Held(f, segs, |h|);
    } else {
      FirstIsLow(f, segs, h, p, ks);
      ReplayedSuffix(f, segs, h, p, ks, 0, cp);
      assert ks[0..] == ks;
    }
  }

  // ----- what a running log adds ------------------------------------------------------

  /** The invariant of a running log: its segment list ks names every segment
      that matters, the last one takes the appends, and no tail is torn. While
      no segment is open the last one is not empty, so the next one to be
      created has a new name. */
  ghost predicate LogInv(f: LawfulFormat, segs: Segments, h: History, p: nat, ks: seq<nat>, active: bool) {
    && DirInv(f, segs, h, p)
    && ListsLive(f, segs, p, ks)
    && (forall k {:trigger Intact(f, segs, k)} :: k in segs ==> Intact(f, segs, k))
    && (ks != [] ==> Newest(f, segs, h, ks[|ks| - 1]))
    && (active ==> ks != [])
    && (!active && ks != [] ==> Count(f, segs, ks[|ks| - 1]) >= 1)
  }

  lemma RetiredLog(f: LawfulFormat, segs: Segments, h: History, p: nat, ks: seq<nat>)
    requires LogInv(f, segs, h, p, ks, true) && segs[ks[|ks| - 1]] != []
    ensures LogInv(f, segs, h, p, ks, false)
  {
    assert Intact(f, segs, ks[|ks| - 1]);
    CleanAndNonEmptyHasRecords(f, segs[ks[|ks| - 1]]);
  }

  lemma AllNonEmpty(f: LawfulFormat, segs: Segments, h: History, p: nat, ks: seq<nat>, k: nat)
    requires LogInv(f, segs, h, p, ks, false) && k in segs
    ensures 1 <= Count(f, segs, k) && k <= |h|
  {
    assert HoldsAt(f, segs, h, k);
    assert k != ks[|ks| - 1] ==> Before(f, segs, k, ks[|ks| - 1]);
  }

  lemma CreatedLog(f: LawfulFormat, segs: Segments, h: History, p: nat, ks: seq<nat>)
    requires LogInv(f, segs, h, p, ks, false)
    ensures LogInv(f, segs[|h| + 1 := []], h, p, ks + [|h| + 1], true)
  {
    var n, segs' := |h| + 1, segs[|h| + 1 := []];
    forall k | k in segs ensures Count(f, segs, k) >= 1 && k < n {
      AllNonEmpty(f, segs, h, p, ks, k);
    }
    CreatedInv(f, segs, h, p, segs');
    AscendingAppend(ks, n);
    forall k | k in segs' && k !in ks + [n] ensures k + Count(f, segs', k) <= p + 1 {
      assert k in segs && k !in ks;
    }
  }

  lemma WrittenLog(f: LawfulFormat, segs: Segments, h: History, p: nat, ks: seq<nat>, payload: seq<byte>)
    requires LogInv(f, segs, h, p, ks, true) && |payload| <= MAX_RECORD_BYTES && |h| + 1 < TWO_64
    ensures var k, rec := ks[|ks| - 1], f.encode(Record(|h| + 1, payload));
            LogInv(f, segs[k := segs[k] + rec], h + [payload], p, ks, true)
  {
    var k, rec := ks[|ks| - 1], f.encode(Record(|h| + 1, payload));
    var segs' := segs[k := segs[k] + rec];
    assert rec[..|rec|] == rec;
    WrittenInv(f, segs, h, p, k, payload, |rec|, segs');
    assert Intact(f, segs, k);
    forall j | j in segs' ensures Intact(f, segs', j) {
      assert Intact(f, segs, j);
    }
    forall j | j in segs' && j !in ks ensures j + Count(f, segs', j) <= p + 1 {
      assert j + Count(f, segs, j) <= p + 1;
    }
  }

  /** A crash after some bytes of a record, or all of them. */
  lemma CrashedInv(f: LawfulFormat, segs: Segments, h: History, p: nat, ks: seq<nat>, payload: seq<byte>, written: nat)
    requires LogInv(f, segs, h, p, ks, true) && |payload| <= MAX_RECORD_BYTES && |h| + 1 < TWO_64
    requires written <= |f.encode(Record(|h| + 1, payload))|
    ensures var k, rec := ks[|ks| - 1], f.encode(Record(|h| + 1, payload));
            DirInv(f, segs[k := segs[k] + rec[..written]], if written == |rec| then h + [payload] else h, p)
  {
    var k, rec := ks[|ks| - 1], f.encode(Record(|h| + 1, payload));
    WrittenInv(f, segs, h, p, k, payload, written, segs[k := segs[k] + rec[..written]]);
  }

  /** A segment list read back from the directory, its torn tail cut. */
  lemma OpenedLog(f: LawfulFormat, segs: Segments, h: History, p: nat, ks: seq<nat>)
    requires DirInv(f, segs, h, p)
    requires Ascending(ks) && ks != [] && forall k :: k in ks <==> k in segs
    ensures var last := ks[|ks| - 1];
            && Scan(f, segs[last]).end <= |segs[last]|
            && LogInv(f, segs[last := segs[last][..Scan(f, segs[last]).end]], h, p, ks, true)
  {
    var last := ks[|ks| - 1];
    assert last in segs;
    NewestIsLast(f, segs, h, ks);
    ScanVisitsAPrefix(f, segs[last]);
    var segs' := segs[last := segs[last][..Scan(f, segs[last]).end]];
    TruncatedInv(f, segs, h, p, last, segs');
    forall k | k in segs' ensures Intact(f, segs', k) {
      assert k != last ==> Before(f, segs, k, last);
    }
  }

  lemma OpenedEmptyLog(f: LawfulFormat, segs: Segments, h: History, p: nat)
    requires DirInv(f, segs, h, p)
    ensures segs == map[] ==> LogInv(f, segs, h, p, [], false)
  {
  }

  /** The successor of a listed segment starts at most one past the checkpoint. */
  predicate Passed(ks: seq<nat>, cp: nat, j: nat) {
    j + 1 < |ks| && ks[j + 1] <= cp + 1
  }

  /** The segments before i whose records are all covered. */
  function Covered(ks: seq<nat>, cp: nat, i: nat): set<nat>
    requires i <= |ks|
  {
    set j: nat | j < i && Passed(ks, cp, j) :: ks[j]
  }

  /** The covered files are gone, except those that could not be removed, and the
      others are listed. */
  ghost predicate PrunedTo(segs: Segments, ks: seq<nat>, cp: nat, i: nat, stuck: set<nat>, segs': Segments, kept: seq<nat>)
    requires i <= |ks|
  {
    && segs' == segs - (Covered(ks, cp, i) - stuck)
    && Ascending(kept)
    && forall k :: k in kept <==> k in ks[..i] && k !in Covered(ks, cp, i)
  }

  lemma CoveredNext(ks: seq<nat>, cp: nat, i: nat)
    requires Ascending(ks) && i < |ks|
    ensures Covered(ks, cp, i + 1) == Covered(ks, cp, i) + if Passed(ks, cp, i) then {ks[i]} else {}
    ensures ks[i] !in Covered(ks, cp, i) && ks[i] !in ks[..i]
  {
  }

  lemma PrunedNext(segs: Segments, ks: seq<nat>, cp: nat, i: nat, stuck: set<nat>, segs': Segments, kept: seq<nat>)
    requires Ascending(ks) && i < |ks| && PrunedTo(segs, ks, cp, i, stuck, segs', kept)
    ensures if Passed(ks, cp, i)
            then PrunedTo(segs, ks, cp, i + 1, stuck, if ks[i] in stuck then segs' else segs' - {ks[i]}, kept)
            else PrunedTo(segs, ks, cp, i + 1, stuck, segs', kept + [ks[i]])
  {
    assert ks[..i + 1] == ks[..i] + [ks[i]];
    CoveredNext(ks, cp, i);
    assert forall k :: k in kept ==> k < ks[i];
    AscendingAppend(kept, ks[i]);
  }

  /** No file changed, and only those are gone whose records are all covered. */
  ghost predicate OnlyCovered(f: LawfulFormat, segs: Segments, segs': Segments, cp: nat) {
    && (forall k :: k in segs' ==> k in segs && segs'[k] == segs[k])
    && (forall k :: k in segs && k !in segs' ==> k + Count(f, segs, k) <= cp + 1 && k <= cp)
  }

  lemma CoveredIsBelow(f: LawfulFormat, segs: Segments, h: History, p: nat, ks: seq<nat>, active: bool, i: nat, k: nat)
    requires LogInv(f, segs, h, p, ks, active) && i <= |ks| && k in Covered(ks, p, i)
    ensures k in segs && k + Count(f, segs, k) <= p + 1 && k <= p && k < ks[|ks| - 1]
  {
    var j: nat :| j < i && Passed(ks, p, j) && ks[j] == k;
    assert ks[j] in segs && ks[j + 1] in segs;
    assert Before(f, segs, ks[j], ks[j + 1]);
  }

  lemma PrunedDir(f: LawfulFormat, segs: Segments, h: History, p: nat, ks: seq<nat>, active: bool, i: nat,
                  stuck: set<nat>, segs': Segments, kept: seq<nat>)
    requires LogInv(f, segs, h, p, ks, active) && i <= |ks| && PrunedTo(segs, ks, p, i, stuck, segs', kept)
    ensures DirInv(f, segs', h, p) && OnlyCovered(f, segs, segs', p)
    ensures forall k :: Newest(f, segs, h, k) ==> Newest(f, segs', h, k)
  {
    forall k | k in segs && k !in segs'
      ensures k + Count(f, segs, k) <= p + 1 && k <= p && !Newest(f, segs, h, k)
    {
      CoveredIsBelow(f, segs, h, p, ks, active, i, k);
      assert ks[|ks| - 1] in segs;
    }
    PrunedInv(f, segs, h, p, p, segs');
  }

  lemma PrunedLog(f: LawfulFormat, segs: Segments, h: History, p: nat, ks: seq<nat>, active: bool,
                  stuck: set<nat>, segs': Segments, kept: seq<nat>)
    requires LogInv(f, segs, h, p, ks, active) && PrunedTo(segs, ks, p, |ks|, stuck, segs', kept)
    ensures LogInv(f, segs', h, p, kept, active)
    ensures ks != [] ==> kept != [] && kept[|kept| - 1] == ks[|ks| - 1]
  {
    PrunedDir(f, segs, h, p, ks, active, |ks|, stuck, segs', kept);
    assert ks[..|ks|] == ks;
    forall k | k in Covered(ks, p, |ks|) ensures k + Count(f, segs, k) <= p + 1 && k < ks[|ks| - 1] {
      CoveredIsBelow(f, segs, h, p, ks, active, |ks|, k);
    }
    if ks != [] {
      LastIsKept(ks, kept);
    }
    assert forall k :: k in segs' ==> Intact(f, segs, k) && Count(f, segs', k) == Count(f, segs, k);
  }

  lemma LastIsKept(ks: seq<nat>, kept: seq<nat>)
    requires ks != [] && Ascending(ks) && Ascending(kept) && ks[|ks| - 1] in kept && forall k :: k in kept ==> k in ks
    ensures kept != [] && kept[|kept| - 1] == ks[|ks| - 1]
  {
    var j :| 0 <= j < |kept| && kept[j] == ks[|ks| - 1];
    assert kept[|kept| - 1] in ks;
  }

  /** The checkpoint file is replaced before anything is removed. */
  lemma CheckpointedLog(f: LawfulFormat, segs: Segments, h: History, p: nat, ks: seq<nat>, active: bool, p': nat)
    requires LogInv(f, segs, h, p, ks, active) && p <= p' <= |h|
    ensures LogInv(f, segs, h, p', ks, active)
  {
    PrunedInv(f, segs, h, p, p', segs);
  }

  // ----- the code -------------------------------------------------------------------

  /** What goes wrong during an append, if anything: the file system refuses a
      call, or the process dies (before writing, or after some bytes). */
  datatype AppendFault =
    | NoFault
    | RotateFault
    | OpenFault
    | WriteFault(partial: nat)
    | SyncFault
    | CrashAtStart
    | CrashWhileWriting(written: nat)
  {
    predicate Kills() {
      CrashAtStart? || CrashWhileWriting?
    }
  }

  datatype AppendResult = Appended(seqNo: nat) | Refused | Crashed

  /** The same for a checkpoint: the checkpoint file cannot be written, the
      process dies before or after the rename and some of the removals. */
  datatype CheckpointFault = NoCheckpointFault | CheckpointWriteFault | CrashBeforeRename | CrashAfterRename(removals: nat)
  {
    predicate Kills() {
      CrashBeforeRename? || CrashAfterRename?
    }

    /** The checkpoint file is replaced. */
    predicate Renames() {
      NoCheckpointFault? || CrashAfterRename?
    }
  }

  datatype CheckpointResult = Done | NotWritten | Died

  /** The directory. */
  class Dir {
    var segs: Segments
    var persisted: nat             // what the checkpoint file says, zero while there is none
    ghost var history: History     // payloads of all records ever appended

    /** A new directory. */
    constructor (f: LawfulFormat)
      ensures Inv(f) && history == [] && persisted == 0
    {
      segs, history, persisted := map[], [], 0;
    }

    ghost predicate Inv(f: LawfulFormat)
      reads this
    {
      DirInv(f, segs, history, persisted)
    }

    /** Segment files in order of their start sequence. */
    method ListSegments() returns (ks: seq<nat>)
      ensures Ascending(ks)
      ensures forall k :: k in ks <==> k in segs
    {
      ks := [];
      var files := segs.Keys;
      var rest := files;
      while rest != {}
        invariant rest <= files && Ascending(ks)
        invariant forall k :: k in ks <==> k in files - rest
        invariant forall j, k :: j in ks && k in rest ==> j < k
        decreases rest
      {
        LeastExists(rest);
        var least :| Least(least, rest);
        AscendingAppend(ks, least);
        ks, rest := ks + [least], rest - {least};
      }
    }
  }

  predicate Least(m: nat, s: set<nat>) {
    m in s && forall k :: k in s ==> m <= k
  }

  lemma {:induction false} LeastExists(s: set<nat>)
    requires s != {}
    ensures exists m :: Least(m, s)
  {
    var x :| x in s;
    if s == {x} {
      assert Least(x, s);
    } else {
      LeastExists(s - {x});
      var m :| Least(m, s - {x});
      assert forall k :: k in s ==> k == x || k in s - {x};
      assert Least(if m <= x then m else x, s);
    }
  }

  /** The log of a running process. */
  class WAL {
    const dir: Dir
    const f: LawfulFormat
    const maxSegment: nat
    const syncOnAppend: bool

    var nextSeq: nat
    var checkpoint: nat
    var segments: seq<nat>     // start sequences, ascending; the last is active
    var active: bool           // whether the last segment is open for appending
    var activeSize: nat

    ghost predicate Valid()
      reads this, dir
    {
      && LogInv(f, dir.segs, dir.history, dir.persisted, segments, active)
      && nextSeq == |dir.history| + 1
      && dir.persisted <= checkpoint <= |dir.history|
      && (active ==> activeSize == |dir.segs[segments[|segments| - 1]]|)
    }

    /** Open recovers the counter and the checkpoint from any directory a crash
        may leave, and cuts a torn tail; it loses no record. */
    constructor Open(dir: Dir, f: LawfulFormat, maxSegment: nat, syncOnAppend: bool)
      requires dir.Inv(f)
      modifies dir
      ensures this.dir == dir && this.f == f
      ensures Valid()
      ensures dir.history == old(dir.history) && dir.persisted == old(dir.persisted)
      ensures checkpoint == dir.persisted
    {
      this.dir, this.f, this.syncOnAppend := dir, f, syncOnAppend;
      this.maxSegment := if maxSegment == 0 then 0x80_0000 else maxSegment;
      checkpoint := dir.persisted;
      new;
      segments := dir.ListSegments();
      var maxSeq, lastEnd := ScanSegments(f, dir.segs, segments, dir.history);
      HighestReaches(f, dir.segs, dir.history, dir.persisted, segments, maxSeq);
      OpenActive(lastEnd);
      nextSeq := if checkpoint + 1 > maxSeq + 1 then checkpoint + 1 else maxSeq + 1;
    }

    /** The newest segment, if any, is opened for appending, its torn tail cut. */
    method OpenActive(lastEnd: nat)
      requires dir.Inv(f) && Ascending(segments) && forall k :: k in segments <==> k in dir.segs
      requires segments != [] ==> lastEnd == Scan(f, dir.segs[segments[|segments| - 1]]).end
      modifies this`active, this`activeSize, dir`segs
      ensures LogInv(f, dir.segs, dir.history, dir.persisted, segments, active)
      ensures active ==> activeSize == |dir.segs[segments[|segments| - 1]]|
    {
      if segments == [] {
        active, activeSize := false, 0;
        OpenedEmptyLog(f, dir.segs, dir.history, dir.persisted);
      } else {
        var last := segments[|segments| - 1];
        var segs := dir.segs;
        OpenedLog(f, segs, dir.history, dir.persisted, segments);
        var segs' := segs[last := segs[last][..lastEnd]];
        assert LogInv(f, segs', dir.history, dir.persisted, segments, true);
        dir.segs := segs';
        active, activeSize := true, lastEnd;
      }
    }

    /** Append writes one record. When it is refused the log is unchanged; when
        the process dies in the middle the record is whole or absent. */
    method Append(payload: seq<byte>, fault: AppendFault) returns (res: AppendResult)
      requires Valid() && |payload| <= MAX_RECORD_BYTES && nextSeq + 1 < TWO_64
      modifies this, dir
      ensures dir.persisted == old(dir.persisted) && checkpoint == old(checkpoint)
      ensures !res.Crashed? ==> Valid()
      ensures res.Appended? ==> res.seqNo == |dir.history| && dir.history == old(dir.history) + [payload]
      ensures res.Refused? ==> dir.history == old(dir.history)
      ensures res.Crashed? ==>
        dir.Inv(f) && (dir.history == old(dir.history) || dir.history == old(dir.history) + [payload])
      ensures fault.NoFault? ==> res.Appended?
      ensures fault.WriteFault? ==> res.Refused?
      ensures res.Crashed? <==> fault.Kills()
    {
      if fault.CrashAtStart? {
        return Crashed;
      }
      var seqNo := nextSeq;
      var size := |f.encode(Record(seqNo, payload))|;
      if active && activeSize > 0 && activeSize + size > maxSegment {
        Rotate();
        if fault.RotateFault? {
          return Refused;
        }
      }
      if !active {
        if fault.OpenFault? {
          return Refused;
        }
        OpenNewSegment(seqNo);
      }
      res := Put(payload, fault);
    }

    /** The write itself, at the end of the active segment. */
    method Put(payload: seq<byte>, fault: AppendFault) returns (res: AppendResult)
      requires Valid() && active && |payload| <= MAX_RECORD_BYTES && nextSeq + 1 < TWO_64
      modifies this`nextSeq, this`activeSize, dir`segs, dir`history
      ensures !res.Crashed? ==> Valid()
      ensures res.Appended? ==> res.seqNo == |dir.history| && dir.history == old(dir.history) + [payload]
      ensures res.Refused? ==> dir.history == old(dir.history)
      ensures res.Crashed? ==>
        dir.Inv(f) && (dir.history == old(dir.history) || dir.history == old(dir.history) + [payload])
      ensures fault.NoFault? ==> res.Appended?
      ensures fault.WriteFault? ==> res.Refused?
      ensures res.Crashed? <==> fault.CrashWhileWriting?
    {
      var rec := f.encode(Record(nextSeq, payload));
      if fault.CrashWhileWriting? {
        WriteAndCrash(rec, payload, if fault.written < |rec| then fault.written else |rec|);
        return Crashed;
      }
      if fault.WriteFault? {
        WritePart(rec[..if fault.partial < |rec| then fault.partial else |rec|]);
        return Refused;
      }
      if syncOnAppend && fault.SyncFault? {
        WriteUnsynced(rec);
        return Refused;
      }
      var written := Write(rec, payload);
      return Appended(written);
    }

    /** The active segment is retired even when syncing or closing it fails. */
    method Rotate()
      requires Valid() && active && activeSize > 0
      modifies this`active, this`activeSize
      ensures Valid() && !active
    {
      RetiredLog(f, dir.segs, dir.history, dir.persisted, segments);
      active, activeSize := false, 0;
    }

    method OpenNewSegment(startSeq: nat)
      requires Valid() && !active && startSeq == nextSeq
      modifies this`segments, this`active, this`activeSize, dir`segs
      ensures Valid() && active
    {
      CreatedLog(f, dir.segs, dir.history, dir.persisted, segments);
      dir.segs := dir.segs[startSeq := []];
      segments := segments + [startSeq];
      active, activeSize := true, 0;
    }

    method Write(rec: seq<byte>, payload: seq<byte>) returns (seqNo: nat)
      requires Valid() && active && |payload| <= MAX_RECORD_BYTES && nextSeq + 1 < TWO_64
      requires rec == f.encode(Record(nextSeq, payload))
      modifies this`nextSeq, this`activeSize, dir`segs, dir`history
      ensures Valid()
      ensures seqNo == |dir.history| && dir.history == old(dir.history) + [payload]
    {
      var k := segments[|segments| - 1];
      var segs' := dir.segs[k := dir.segs[k] + rec];
      ghost var h' := dir.history + [payload];
      WrittenLog(f, dir.segs, dir.history, dir.persisted, segments, payload);
      assert |segs'[k]| == activeSize + |rec|;
      dir.segs, dir.history := segs', h';
      activeSize, nextSeq := activeSize + |rec|, nextSeq + 1;
      return nextSeq - 1;
    }

    /** A write that fails after some bytes, which are cut off again. */
    method WritePart(rec: seq<byte>)
      requires Valid() && active
      modifies dir`segs
      ensures dir.segs == old(dir.segs)
    {
      var k, data := segments[|segments| - 1], dir.segs[segments[|segments| - 1]];
      dir.segs := dir.segs[k := data + rec];
      Truncate(k, data);
    }

    /** A write whose sync fails: the record is rolled back as if never written. */
    method WriteUnsynced(rec: seq<byte>)
      requires Valid() && active
      modifies dir`segs, this`activeSize, this`nextSeq
      ensures dir.segs == old(dir.segs) && activeSize == old(activeSize) && nextSeq == old(nextSeq)
    {
      var k, data := segments[|segments| - 1], dir.segs[segments[|segments| - 1]];
      dir.segs := dir.segs[k := data + rec];
      activeSize, nextSeq := activeSize + |rec|, nextSeq + 1;
      activeSize, nextSeq := activeSize - |rec|, nextSeq - 1;
      Truncate(k, data);
    }

    /** A write the process does not survive. */
    method WriteAndCrash(rec: seq<byte>, payload: seq<byte>, written: nat)
      requires Valid() && active && |payload| <= MAX_RECORD_BYTES && nextSeq + 1 < TWO_64
      requires rec == f.encode(Record(nextSeq, payload)) && written <= |rec|
      modifies dir`segs, dir`history
      ensures dir.Inv(f)
      ensures dir.history == if written == |rec| then old(dir.history) + [payload] else old(dir.history)
    {
      var k, data := segments[|segments| - 1], dir.segs[segments[|segments| - 1]];
      var segs' := dir.segs[k := data + rec[..written]];
      ghost var h' := if written == |rec| then dir.history + [payload] else dir.history;
      CrashedInv(f, dir.segs, dir.history, dir.persisted, segments, payload, written);
      dir.segs, dir.history := segs', h';
    }

    /** The rollback: cut the segment back to its size before the write. */
    method Truncate(k: nat, ghost before: seq<byte>)
      requires k in dir.segs && before <= dir.segs[k] && activeSize == |before|
      modifies dir`segs
      ensures dir.segs == old(dir.segs)[k := before]
    {
      assert dir.segs[k][..activeSize] == before;
      dir.segs := dir.segs[k := dir.segs[k][..activeSize]];
    }

    /** SetCheckpoint persists that all records up to seqNo were applied, and
        removes segments it covers: never one holding an unapplied record, and
        a removal that fails leaves the log as good as one that succeeds. */
    method SetCheckpoint(seqNo: nat, fault: CheckpointFault, stuck: set<nat>) returns (res: CheckpointResult)
      requires Valid() && seqNo < nextSeq
      modifies this, dir
      ensures dir.history == old(dir.history)
      ensures forall k :: k in dir.segs ==> k in old(dir.segs) && dir.segs[k] == old(dir.segs)[k]
      ensures forall k :: k in old(dir.segs) && k !in dir.segs ==>
                k + Count(f, old(dir.segs), k) <= dir.persisted + 1 && k <= seqNo
      ensures !res.Died? ==> Valid() && checkpoint == Max(old(checkpoint), seqNo)
      ensures res.Done? ==>
        dir.persisted == if seqNo <= old(checkpoint) then old(dir.persisted) else seqNo
      ensures res.NotWritten? ==> unchanged(dir)
      ensures res.Died? ==> dir.Inv(f) && old(checkpoint) < seqNo && dir.persisted in {old(dir.persisted), seqNo}
      ensures fault.NoCheckpointFault? ==> res.Done?
      ensures res.Done? && seqNo > old(checkpoint) ==>
        PrunedTo(old(dir.segs), old(segments), seqNo, |old(segments)|, stuck, dir.segs, segments)
      ensures fault.CheckpointWriteFault? && seqNo > old(checkpoint) ==> res.NotWritten?
      ensures dir.persisted == if seqNo > old(checkpoint) && fault.Renames() then seqNo else old(dir.persisted)
      ensures res.Died? ==> fault.Kills()
      ensures res.NotWritten? ==> fault.CheckpointWriteFault?
    {
      if seqNo <= checkpoint {
        return Done;
      }
      checkpoint := seqNo;
      if fault.CheckpointWriteFault? {
        return NotWritten;
      }
      if fault.CrashBeforeRename? {
        return Died;
      }
      CheckpointedLog(f, dir.segs, dir.history, dir.persisted, segments, active, seqNo);
      dir.persisted := seqNo;
      var finished := Prune(fault, stuck);
      res := if finished then Done else Died;
    }

    method Prune(fault: CheckpointFault, stuck: set<nat>) returns (finished: bool)
      requires Valid() && dir.persisted == checkpoint
      modifies this`segments, dir`segs
      ensures if finished then Valid() else dir.Inv(f)
      ensures OnlyCovered(f, old(dir.segs), dir.segs, checkpoint)
      ensures finished ==>
        PrunedTo(old(dir.segs), old(segments), checkpoint, |old(segments)|, stuck, dir.segs, segments)
      ensures !fault.CrashAfterRename? ==> finished
    {
      ghost var segs, h := dir.segs, dir.history;
      var segs', kept, done := PruneSegments(dir.segs, segments, checkpoint, fault, stuck);
      PrunedDir(f, segs, h, checkpoint, segments, active, done, stuck, segs', kept);
      finished := done == |segments|;
      if finished {
        PrunedLog(f, segs, h, checkpoint, segments, active, stuck, segs', kept);
        segments := kept;
      }
      dir.segs := segs';
    }

    /** Replay visits every record above the checkpoint, once, in order. */
    method Replay() returns (visited: seq<Record>)
      requires Valid()
      ensures visited == Recs(dir.history, checkpoint + 1, |dir.history| - checkpoint)
    {
      var segs, ks, cp := dir.segs, segments, checkpoint;
      visited := [];
      assert ks[0..] == ks;
      for i := 0 to |ks|
        invariant Replayed(f, segs, ks, cp) == visited + Replayed(f, segs, ks[i..], cp)
      {
        var records, _, _ := ScanSegment(f, segs[ks[i]]);
        var share := VisitAbove(records, cp);
        ReplayedStep(f, segs, ks, i, cp);
        Assoc(visited, share, Replayed(f, segs, ks[i + 1..], cp));
        visited := visited + share;
      }
      ReplayIsExact(f, segs, dir.history, dir.persisted, ks, cp);
    }
  }

  /** Visiting records k, k + 1, ... to find the highest sequence number. */
  method HighestSeq(records: seq<Record>, soFar: nat, k: nat, ghost h: History) returns (maxSeq: nat)
    requires 1 <= k && k + |records| <= |h| + 1 && soFar <= |h| && records == Recs(h, k, |records|)
    ensures soFar <= maxSeq <= |h|
    ensures maxSeq + 1 >= k + |records| || records == []
  {
    maxSeq := soFar;
    for i := 0 to |records|
      invariant soFar <= maxSeq <= |h|
      invariant i > 0 ==> maxSeq + 1 >= k + i
    {
      if records[i].seqNo > maxSeq {
        maxSeq := records[i].seqNo;
      }
    }
  }

  lemma AboveNext(rs: seq<Record>, i: nat, cp: nat)
    requires i < |rs|
    ensures Above(rs[i..], cp)
            == if rs[i].seqNo > cp then [rs[i]] + Above(rs[i + 1..], cp) else Above(rs[i + 1..], cp)
  {
    assert rs[i..] == [rs[i]] + rs[i + 1..];
    AboveMore(rs[i..], rs[i], rs[i + 1..], cp, Above(rs[i + 1..], cp));
  }

  /** The records of one segment that Replay does not skip. */
  method VisitAbove(records: seq<Record>, cp: nat) returns (share: seq<Record>)
    ensures share == Above(records, cp)
  {
    share := [];
    assert records[0..] == records;
    for i := 0 to |records|
      invariant Above(records, cp) == share + Above(records[i..], cp)
    {
      AboveNext(records, i, cp);
      if records[i].seqNo > cp {
        Assoc(share, [records[i]], Above(records[i + 1..], cp));
        share := share + [records[i]];
      }
    }
  }

  /** Open's pass over every segment: the highest sequence number found, and
      where the scan of the last segment ended. */
  method ScanSegments(f: LawfulFormat, segs: Segments, ks: seq<nat>, ghost h: History)
    returns (maxSeq: nat, lastEnd: nat)
    requires forall k :: k in ks ==> k in segs && HoldsAt(f, segs, h, k)
    ensures maxSeq <= |h|
    ensures forall k :: k in ks ==> maxSeq + 1 >= k + Count(f, segs, k) || Count(f, segs, k) == 0
    ensures ks != [] ==> lastEnd == Scan(f, segs[ks[|ks| - 1]]).end
  {
    maxSeq, lastEnd := 0, 0;
    for i := 0 to |ks|
      invariant maxSeq <= |h|
      invariant forall j :: 0 <= j < i ==> maxSeq + 1 >= ks[j] + Count(f, segs, ks[j]) || Count(f, segs, ks[j]) == 0
      invariant i > 0 ==> lastEnd == Scan(f, segs[ks[i - 1]]).end
    {
      var k := ks[i];
      assert k in ks;
      var records, end, _ := ScanSegment(f, segs[k]);
      maxSeq := HighestSeq(records, maxSeq, k, h);
      lastEnd := end;
    }
  }

  /** Pruning: which segments stay listed, and which files stay. A file whose
      removal fails stays although it is no longer listed. */
  method PruneSegments(segs: Segments, ks: seq<nat>, cp: nat, fault: CheckpointFault, stuck: set<nat>)
    returns (segs': Segments, kept: seq<nat>, done: nat)
    requires Ascending(ks)
    ensures done <= |ks| && PrunedTo(segs, ks, cp, done, stuck, segs', kept)
    ensures done < |ks| ==> fault.CrashAfterRename?
  {
    segs', kept := segs, [];
    var removals := 0;
    for i := 0 to |ks|
      invariant PrunedTo(segs, ks, cp, i, stuck, segs', kept)
    {
      PrunedNext(segs, ks, cp, i, stuck, segs', kept);
      var k := ks[i];
      if i < |ks| - 1 && ks[i + 1] - 1 <= cp {
        if fault.CrashAfterRename? && removals == fault.removals {
          return segs', kept, i;
        }
        if k !in stuck {
          segs' := segs' - {k};
        }
        removals := removals + 1;
      } else {
        kept := kept + [k];
      }
    }
    return segs', kept, |ks|;
  }

  lemma NewestIsLast(f: LawfulFormat, segs: Segments, h: History, ks: seq<nat>)
    requires exists k :: Newest(f, segs, h, k)
    requires Ascending(ks) && ks != [] && forall k :: k in ks <==> k in segs
    ensures Newest(f, segs, h, ks[|ks| - 1])
  {
    var k :| Newest(f, segs, h, k);
    var j :| 0 <= j < |ks| && ks[j] == k;
    assert ks[|ks| - 1] in segs;
  }

  /** The highest sequence number found, or the checkpoint, is the last used. */
  lemma HighestReaches(f: LawfulFormat, segs: Segments, h: History, p: nat, ks: seq<nat>, maxSeq: nat)
    requires DirInv(f, segs, h, p) && (forall k :: k in ks <==> k in segs)
    requires forall k :: k in segs ==> maxSeq + 1 >= k + Count(f, segs, k) || Count(f, segs, k) == 0
    ensures maxSeq >= |h| || p == |h|
  {
    if p < |h| {
      assert Held(f, segs, |h|);
      var k :| Covers(f, segs, k, |h|);
    }
  }
}
