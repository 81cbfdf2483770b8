/** Durable delivery: batches are spooled in a write-ahead log, posted, and
    acknowledged once they are accepted or refused for good. */
module Forward {
  import opened Bytes
  import opened Seqs
  import opened WalCodec
  import opened Wal

  /** How posting a spooled batch ends: with the batch on disk, transient
      failures are retried without limit. */
  datatype Outcome = Delivered | Permanent | Abandoned

  /** What a call leaves: the process goes on, it left a batch behind, or it
      died. */
  datatype Ending = Going | Stopped | Dead

  /** A batch that was posted: its number in the spool, zero if the spool refused
      it; how posting ended; whether the dead letter of a refused batch could be
      written; and whether its acknowledgement reached the checkpoint file. */
  datatype Delivery = Delivery(seqNo: nat, outcome: Outcome, written: bool, marked: bool)

  /** The server has the batch, or the dead-letter file does. */
  predicate Safe(d: Delivery) {
    d.outcome.Delivered? || (d.outcome.Permanent? && d.written)
  }

  /** A spooled batch is acknowledged unless it was abandoned, whatever became of
      its dead letter. */
  predicate Acked(d: Delivery) {
    d.seqNo > 0 && !d.outcome.Abandoned?
  }

  ghost predicate SafeIn(run: seq<Delivery>, s: nat) {
    exists d :: d in run && d.seqNo == s && Safe(d)
  }

  ghost predicate MarkedFrom(run: seq<Delivery>, s: nat) {
    exists d :: d in run && d.marked && s <= d.seqNo
  }

  /** The deliveries account for what the checkpoint file says. */
  ghost predicate Tells(run: seq<Delivery>, n: nat, persisted: nat) {
    && (forall d :: d in run ==> d.seqNo <= n && (d.marked ==> Acked(d) && d.seqNo <= persisted))
    && (persisted > 0 ==> exists d :: d in run && d.marked && d.seqNo == persisted)
  }

  lemma TellsMore(run: seq<Delivery>, n: nat, persisted: nat, d: Delivery, persisted': nat)
    requires Tells(run, n, persisted) && d.seqNo <= n && persisted <= persisted'
    requires if d.marked then Acked(d) && persisted' == d.seqNo else persisted' == persisted
    ensures Tells(run + [d], n, persisted')
  {
    assert d in run + [d];
    assert forall x :: x in run ==> x in run + [d];
  }

  /** Nothing is left to do for batch s; a payload that does not read back as a
      batch can never be sent. */
  ghost predicate Settled(s: nat, h: History, run: seq<Delivery>, decodes: seq<byte> -> bool) {
    1 <= s <= |h| && (SafeIn(run, s) || !decodes(h[s - 1]))
  }

  ghost predicate SettledTo(n: nat, h: History, run: seq<Delivery>, decodes: seq<byte> -> bool) {
    forall s :: 1 <= s <= n ==> Settled(s, h, run, decodes)
  }

  /** What is settled stays settled as batches are spooled and others posted. */
  lemma StaysSettled(n: nat, h: History, run: seq<Delivery>, h': History, run': seq<Delivery>, decodes: seq<byte> -> bool)
    requires SettledTo(n, h, run, decodes) && h <= h' && run <= run'
    ensures SettledTo(n, h', run', decodes)
  {
    forall s | 1 <= s <= n ensures Settled(s, h', run', decodes) {
      assert Settled(s, h, run, decodes);
    }
  }

  lemma SettledLess(n: nat, m: nat, h: History, run: seq<Delivery>, decodes: seq<byte> -> bool)
    requires SettledTo(n, h, run, decodes) && m <= n
    ensures SettledTo(m, h, run, decodes)
  {
  }

  lemma SettledOneMore(n: nat, h: History, run: seq<Delivery>, d: Delivery, decodes: seq<byte> -> bool)
    requires SettledTo(n, h, run, decodes) && d.seqNo == n + 1 <= |h| && Safe(d)
    ensures SettledTo(n + 1, h, run + [d], decodes)
  {
    assert d in run + [d];
    StaysSettled(n, h, run, h, run + [d], decodes);
  }

  // ----- what a delivery comes to -------------------------------------------------------

  /** How posting a batch and acknowledging it turn out. */
  datatype Fate = Fate(outcome: Outcome, written: bool, fault: CheckpointFault, stuck: set<nat>)

  /** A batch to send, how spooling it turns out, and the rest. */
  datatype Call = Call(payload: seq<byte>, add: AppendFault, fate: Fate)

  /** The acknowledgement is in the checkpoint file if there was one and it
      replaced the file. */
  function Made(seqNo: nat, fate: Fate): Delivery {
    Delivery(seqNo, fate.outcome, fate.written, seqNo > 0 && !fate.outcome.Abandoned? && fate.fault.Renames())
  }

  predicate Fine(fate: Fate) {
    !fate.outcome.Abandoned? && (fate.outcome.Permanent? ==> fate.written)
  }

  lemma FineIsSafe(seqNo: nat, fate: Fate)
    ensures Safe(Made(seqNo, fate)) <==> Fine(fate)
  {
  }

  /** The payloads that were spooled by the first calls. */
  function Spool(calls: seq<Call>, sent: seq<Delivery>): (h: History)
    requires |sent| <= |calls|
    ensures |h| <= |sent|
  {
    if sent == [] then []
    else
      var k := |sent| - 1;
      Spool(calls, sent[..k]) + if sent[k].seqNo > 0 then [calls[k].payload] else []
  }

  /** These deliveries are what the first calls came to, on a spool of n records:
      each as its call says, numbered as it was spooled. */
  ghost predicate Answered(calls: seq<Call>, sent: seq<Delivery>, n: nat) {
    |sent| <= |calls| &&
    (sent == [] ||
     var k := |sent| - 1;
     && Answered(calls, sent[..k], n)
     && sent[k] == Made(if sent[k].seqNo == 0 then 0 else n + |Spool(calls, sent)|, calls[k].fate)
     && (calls[k].add.NoFault? ==> sent[k].seqNo > 0)
     && (calls[k].add.WriteFault? ==> sent[k].seqNo == 0))
  }

  /** The process died in the call after these, or in the acknowledgement of the
      last. */
  predicate Killed(calls: seq<Call>, n: nat) {
    (n < |calls| && calls[n].add.Kills()) || (0 < n <= |calls| && calls[n - 1].fate.fault.Kills())
  }

  /** What posting again the records from, ..., to - 1 of a spool comes to: one
      delivery of each that reads back as a batch, oldest first. */
  function Again(h: History, decodes: seq<byte> -> bool, fate: nat -> Fate, from: nat, till: nat): seq<Delivery>
    requires till <= |h|
  {
    if till <= from then []
    else Again(h, decodes, fate, from, till - 1) + if decodes(h[till - 1]) then [Made(till, fate(till))] else []
  }

  lemma {:induction false} AgainJoins(h: History, decodes: seq<byte> -> bool, fate: nat -> Fate, from: nat, mid: nat, till: nat)
    requires from <= mid <= till <= |h|
    ensures Again(h, decodes, fate, from, mid) + Again(h, decodes, fate, mid, till) == Again(h, decodes, fate, from, till)
    decreases till
  {
    if till > mid {
      AgainJoins(h, decodes, fate, from, mid, till - 1);
    }
  }

  /** Where a replay ends: after the last record, or at one that is abandoned or
      in whose acknowledgement the process dies. None before it is abandoned. */
  ghost predicate Ends(h: History, decodes: seq<byte> -> bool, fate: nat -> Fate, from: nat, till: nat, end: Ending) {
    && from <= till <= |h|
    && (forall s :: from < s < till && decodes(h[s - 1]) ==> !fate(s).outcome.Abandoned?)
    && match end
       case Going => till > from && decodes(h[till - 1]) ==> !fate(till).outcome.Abandoned?
       case Stopped => till > from && decodes(h[till - 1]) && fate(till).outcome.Abandoned?
       case Dead => till > from && decodes(h[till - 1]) && !fate(till).outcome.Abandoned? && fate(till).fault.Kills()
  }

  /** Dead letters that are needed can be written. */
  ghost predicate Recorded(fate: nat -> Fate, from: nat, till: nat) {
    forall s :: from < s <= till && fate(s).outcome.Permanent? ==> fate(s).written
  }

  lemma AgainOne(h: History, decodes: seq<byte> -> bool, fate: nat -> Fate, from: nat)
    requires from < |h|
    ensures Again(h, decodes, fate, from, from + 1) == if decodes(h[from]) then [Made(from + 1, fate(from + 1))] else []
  {
  }

  /** How far a replay settled everything. */
  function Reached(till: nat, end: Ending): nat {
    if end.Stopped? && till > 0 then till - 1 else till
  }

  /** The deliveries grow by those of a replay. */
  ghost predicate Redo(h: History, decodes: seq<byte> -> bool, fate: nat -> Fate, from: nat, till: nat, end: Ending,
                       run: seq<Delivery>, run': seq<Delivery>)
  {
    Ends(h, decodes, fate, from, till, end) && run' == run + Again(h, decodes, fate, from, till)
  }

  lemma RedoNothing(h: History, decodes: seq<byte> -> bool, fate: nat -> Fate, from: nat, run: seq<Delivery>)
    requires from <= |h|
    ensures Redo(h, decodes, fate, from, from, Going, run, run)
  {
    assert run + [] == run;
  }

  lemma RedoOne(h: History, decodes: seq<byte> -> bool, fate: nat -> Fate, from: nat, end: Ending,
                run: seq<Delivery>, run': seq<Delivery>)
    requires from < |h|
    requires if !decodes(h[from]) then end.Going? && run' == run
             else
               && run' == run + [Made(from + 1, fate(from + 1))]
               && (end.Stopped? <==> fate(from + 1).outcome.Abandoned?)
               && (end.Dead? ==> fate(from + 1).fault.Kills())
    ensures Redo(h, decodes, fate, from, from + 1, end, run, run')
  {
    AgainOne(h, decodes, fate, from);
    assert run + [] == run;
  }

  lemma RedoJoins(h: History, decodes: seq<byte> -> bool, fate: nat -> Fate, from: nat, mid: nat, till: nat, end: Ending,
                  run: seq<Delivery>, run': seq<Delivery>, run'': seq<Delivery>)
    requires Redo(h, decodes, fate, from, mid, Going, run, run') && Redo(h, decodes, fate, mid, till, end, run', run'')
    ensures Redo(h, decodes, fate, from, till, end, run, run'')
  {
    AgainJoins(h, decodes, fate, from, mid, till);
    Assoc(run, Again(h, decodes, fate, from, mid), Again(h, decodes, fate, mid, till));
  }

  lemma {:induction false} AgainSettles(h: History, decodes: seq<byte> -> bool, fate: nat -> Fate, from: nat, till: nat,
                                        run: seq<Delivery>)
    requires from <= till <= |h| && SettledTo(from, h, run, decodes) && Recorded(fate, from, till)
    requires forall s :: from < s <= till && decodes(h[s - 1]) ==> !fate(s).outcome.Abandoned?
    ensures SettledTo(till, h, run + Again(h, decodes, fate, from, till), decodes)
    decreases till
  {
    var more := Again(h, decodes, fate, from, till);
    if till == from {
      assert run + more == run;
    } else {
      var before := Again(h, decodes, fate, from, till - 1);
      AgainSettles(h, decodes, fate, from, till - 1, run);
      if decodes(h[till - 1]) {
        FineIsSafe(till, fate(till));
        SettledOneMore(till - 1, h, run + before, Made(till, fate(till)), decodes);
        Assoc(run, before, [Made(till, fate(till))]);
      } else {
        assert run + more == run + before;
        assert Settled(till, h, run + more, decodes);
      }
    }
  }

  lemma {:induction false} AgainIs(h: History, decodes: seq<byte> -> bool, fate: nat -> Fate, from: nat, till: nat)
    requires till <= |h|
    ensures forall d :: d in Again(h, decodes, fate, from, till) ==>
              from < d.seqNo <= till && d == Made(d.seqNo, fate(d.seqNo))
    decreases till
  {
    if till > from {
      AgainIs(h, decodes, fate, from, till - 1);
    }
  }

  /** However a replay ends, what is behind the checkpoint file is settled. */
  lemma ReplayKeeps(h: History, decodes: seq<byte> -> bool, fate: nat -> Fate, from: nat, till: nat, end: Ending,
                    run: seq<Delivery>, run': seq<Delivery>, persisted: nat, persisted': nat)
    requires Redo(h, decodes, fate, from, till, end, run, run')
    requires SettledTo(from, h, run, decodes) && Recorded(fate, from, till)
    requires Tells(run, |h|, persisted) && persisted <= from && Tells(run', |h|, persisted')
    ensures SettledTo(persisted', h, run', decodes)
    ensures !end.Stopped? ==> SettledTo(till, h, run', decodes)
  {
    var all, good := run', Reached(till, end);
    AgainSettles(h, decodes, fate, from, good, run);
    AgainJoins(h, decodes, fate, from, good, till);
    AgainIs(h, decodes, fate, from, till);
    var some := run + Again(h, decodes, fate, from, good);
    assert some <= all by {
      Assoc(run, Again(h, decodes, fate, from, good), Again(h, decodes, fate, good, till));
    }
    StaysSettled(good, h, some, h, all, decodes);
    assert persisted' <= good;
    SettledLess(good, persisted', h, all, decodes);
  }

  /** No batch but the last is abandoned, and dead letters are written. */
  predicate Careful(calls: seq<Call>) {
    forall i :: 0 <= i < |calls| ==>
      (calls[i].fate.outcome.Permanent? ==> calls[i].fate.written) && (i < |calls| - 1 ==> !calls[i].fate.outcome.Abandoned?)
  }

  lemma {:induction false} FineIsSettled(calls: seq<Call>, sent: seq<Delivery>, h0: History, h: History, run: seq<Delivery>,
                                         decodes: seq<byte> -> bool)
    requires Answered(calls, sent, |h0|) && h0 + Spool(calls, sent) <= h
    requires SettledTo(|h0|, h0, run, decodes) && forall i :: 0 <= i < |sent| ==> Fine(calls[i].fate)
    ensures SettledTo(|h0| + |Spool(calls, sent)|, h, run + sent, decodes)
    decreases |sent|
  {
    if sent == [] {
      assert run + sent == run;
      StaysSettled(|h0|, h0, run, h, run, decodes);
    } else {
      var k := |sent| - 1;
      var front, d := sent[..k], sent[k];
      var n := |h0| + |Spool(calls, front)|;
      FineIsSettled(calls, front, h0, h, run, decodes);
      assert run + sent == run + front + [d];
      FineIsSafe(d.seqNo, calls[k].fate);
      if d.seqNo > 0 {
        SettledOneMore(n, h, run + front, d, decodes);
      } else {
        StaysSettled(n, h, run + front, h, run + sent, decodes);
      }
    }
  }

  lemma {:induction false} AnsweredIs(calls: seq<Call>, sent: seq<Delivery>, n: nat, i: nat)
    requires Answered(calls, sent, n) && i < |sent|
    ensures Answered(calls, sent[..i + 1], n) && Spool(calls, sent[..i + 1]) <= Spool(calls, sent)
    ensures sent[i] == Made(if sent[i].seqNo == 0 then 0 else n + |Spool(calls, sent[..i + 1])|, calls[i].fate)
    decreases |sent|
  {
    var k := |sent| - 1;
    if i == k {
      assert sent[..i + 1] == sent;
    } else {
      AnsweredIs(calls, sent[..k], n, i);
      assert sent[..k][..i + 1] == sent[..i + 1];
    }
  }

  /** If the checkpoint file has moved, it was to an acknowledgement of these. */
  lemma MarkedLast(run: seq<Delivery>, sent: seq<Delivery>, n: nat, n': nat, persisted: nat, persisted': nat) returns (i: nat)
    requires Tells(run, n, persisted) && Tells(run + sent, n', persisted') && persisted' > n
    ensures i < |sent| && sent[i].marked && sent[i].seqNo == persisted'
  {
    var d :| d in run + sent && d.marked && d.seqNo == persisted';
    i :| 0 <= i < |sent| && sent[i] == d;
  }

  lemma StaysBehind(h0: History, more: History, h: History, run: seq<Delivery>, sent: seq<Delivery>, persisted: nat,
                    decodes: seq<byte> -> bool)
    requires SettledTo(|h0|, h0, run, decodes) && h0 + more <= h && persisted <= |h0|
    ensures SettledTo(persisted, h, run + sent, decodes)
  {
    assert h0 <= h0 + more && run <= run + sent;
    StaysSettled(|h0|, h0, run, h, run + sent, decodes);
  }

  /** Sending batches until one is abandoned, or the process dies, leaves nothing
      unsettled behind the checkpoint file. */
  lemma SendingKeeps(calls: seq<Call>, sent: seq<Delivery>, h0: History, h: History, run: seq<Delivery>,
                     persisted: nat, persisted': nat, decodes: seq<byte> -> bool)
    requires Answered(calls, sent, |h0|) && h0 + Spool(calls, sent) <= h && Careful(calls)
    requires SettledTo(|h0|, h0, run, decodes) && Tells(run, |h0|, persisted) && persisted <= |h0|
    requires Tells(run + sent, |h|, persisted')
    ensures SettledTo(persisted', h, run + sent, decodes)
  {
    if persisted' <= |h0| {
      StaysBehind(h0, Spool(calls, sent), h, run, sent, persisted', decodes);
    } else {
      var i := MarkedLast(run, sent, |h0|, |h|, persisted, persisted');
      MarkedIsSettled(calls, sent, h0, h, run, i, decodes);
    }
  }

  lemma CarefulIsFine(calls: seq<Call>, sent: seq<Delivery>, n: nat, i: nat)
    requires Answered(calls, sent, n) && Careful(calls) && i < |sent| && sent[i].marked
    ensures forall k :: 0 <= k <= i ==> Fine(calls[k].fate)
  {
    AnsweredIs(calls, sent, n, i);
  }

  lemma PrefixIsSettled(calls: seq<Call>, some: seq<Delivery>, sent: seq<Delivery>, h0: History, h: History,
                        run: seq<Delivery>, decodes: seq<byte> -> bool)
    requires some <= sent && |sent| <= |calls| && Answered(calls, some, |h0|) && h0 + Spool(calls, some) <= h
    requires SettledTo(|h0|, h0, run, decodes) && forall k :: 0 <= k < |some| ==> Fine(calls[k].fate)
    ensures SettledTo(|h0| + |Spool(calls, some)|, h, run + sent, decodes)
  {
    var n := |h0| + |Spool(calls, some)|;
    FineIsSettled(calls, some, h0, h, run, decodes);
    JoinedExtends(run, some, sent);
    StaysSettled(n, h, run + some, h, run + sent, decodes);
  }

  lemma JoinedExtends<T>(a: seq<T>, b: seq<T>, c: seq<T>)
    requires b <= c
    ensures a + b <= a + c
  {
  }

  lemma MarkedIsSettled(calls: seq<Call>, sent: seq<Delivery>, h0: History, h: History, run: seq<Delivery>, i: nat,
                        decodes: seq<byte> -> bool)
    requires Answered(calls, sent, |h0|) && h0 + Spool(calls, sent) <= h && Careful(calls)
    requires SettledTo(|h0|, h0, run, decodes) && i < |sent| && sent[i].marked
    ensures SettledTo(sent[i].seqNo, h, run + sent, decodes)
  {
    AnsweredIs(calls, sent, |h0|, i);
    CarefulIsFine(calls, sent, |h0|, i);
    JoinedExtends(h0, Spool(calls, sent[..i + 1]), Spool(calls, sent));
    PrefixIsSettled(calls, sent[..i + 1], sent, h0, h, run, decodes);
  }

  /** The records of a spool after these deliveries; a process that died while it
      spooled a batch may have left its record. */
  ghost predicate Grown(h: History, calls: seq<Call>, sent: seq<Delivery>, h': History, end: Ending)
    requires |sent| <= |calls|
  {
    h' == h + Spool(calls, sent)
    || (end.Dead? && |sent| < |calls| && h' == h + Spool(calls, sent) + [calls[|sent|].payload])
  }

  /** One call: its batch is posted, whether or not the spool took it. */
  ghost predicate Posted(c: Call, h: History, h': History, run: seq<Delivery>, run': seq<Delivery>) {
    && (h' == h || h' == h + [c.payload])
    && run' == run + [Made(if h' == h then 0 else |h'|, c.fate)]
    && (c.add.NoFault? ==> h' != h)
    && (c.add.WriteFault? ==> h' == h)
  }

  /** Nothing is left unsettled behind the checkpoint file if nothing was left
      before, and a dead letter that is needed is written. */
  lemma PostedKeeps(c: Call, h: History, h': History, run: seq<Delivery>, run': seq<Delivery>, persisted: nat,
                    decodes: seq<byte> -> bool)
    requires Posted(c, h, h', run, run') && SettledTo(|h|, h, run, decodes) && persisted <= |h|
    requires c.fate.outcome.Permanent? ==> c.fate.written
    ensures run' != [] && var d := run'[|run'| - 1];
            SettledTo(if d.marked then d.seqNo else persisted, h', run', decodes)
  {
    var d := run'[|run'| - 1];
    StaysSettled(|h|, h, run, h', run, decodes);
    StaysSettled(|h|, h, run, h', run', decodes);
    if d.marked {
      FineIsSafe(d.seqNo, c.fate);
      SettledOneMore(|h|, h', run, d, decodes);
    }
  }

  /** The first calls were answered. */
  ghost predicate Sent(calls: seq<Call>, sent: seq<Delivery>, h0: History, h: History, run0: seq<Delivery>, run: seq<Delivery>) {
    Answered(calls, sent, |h0|) && h == h0 + Spool(calls, sent) && run == run0 + sent
  }

  lemma SentNone(calls: seq<Call>, h: History, run: seq<Delivery>)
    ensures Sent(calls, [], h, h, run, run)
  {
    assert h + [] == h && run + [] == run;
  }

  lemma SentMore(calls: seq<Call>, sent: seq<Delivery>, h0: History, h: History, h': History,
                 run0: seq<Delivery>, run: seq<Delivery>, run': seq<Delivery>)
    requires Sent(calls, sent, h0, h, run0, run) && |sent| < |calls| && Posted(calls[|sent|], h, h', run, run')
    ensures run' != [] && Sent(calls, sent + [run'[|run'| - 1]], h0, h', run0, run')
  {
    var d := run'[|run'| - 1];
    var sent' := sent + [d];
    assert sent'[..|sent|] == sent;
    assert run' == run0 + sent';
    assert Spool(calls, sent') == Spool(calls, sent) + if d.seqNo > 0 then [calls[|sent|].payload] else [];
    assert h' == h0 + Spool(calls, sent');
  }

  /** What a process meets: how each batch that was left turns out, and the batches
      to send. */
  datatype Life = Life(fate: nat -> Fate, calls: seq<Call>)

  ghost predicate Sendable(life: Life, decodes: seq<byte> -> bool) {
    forall c :: c in life.calls ==> |c.payload| <= MAX_RECORD_BYTES && decodes(c.payload)
  }

  /** A process on a spool that holds h and whose checkpoint file says p: it posts
      again what is above p, as far as it gets, and then its own batches. */
  ghost predicate Lived(life: Life, h: History, decodes: seq<byte> -> bool, p: nat, reached: nat, sent: seq<Delivery>,
                        h': History, end: Ending)
  {
    && Answered(life.calls, sent, |h|) && Grown(h, life.calls, sent, h', end)
    && exists first ::
       && Ends(h, decodes, life.fate, p, reached, first) && (first.Going? ==> reached == |h|)
       && if first.Dead? then sent == [] && end.Dead?
          else if end.Dead? then Killed(life.calls, |sent|) else |sent| == |life.calls|
  }

  /** It ends with its first abandoned batch, and dead letters are written. */
  ghost predicate Prudent(life: Life) {
    && Careful(life.calls)
    && (forall s :: life.fate(s).outcome.Permanent? ==> life.fate(s).written)
    && (life.calls != [] ==> forall s :: !life.fate(s).outcome.Abandoned?)
  }

  /** A process that is prudent leaves nothing unsettled behind the checkpoint
      file. */
  lemma LifeKeeps(life: Life, decodes: seq<byte> -> bool, h: History, p: nat, run: seq<Delivery>, reached: nat, first: Ending,
                  p': nat, sent: seq<Delivery>, end: Ending, h': History, p'': nat)
    requires Prudent(life) && SettledTo(p, h, run, decodes) && Tells(run, |h|, p)
    requires Ends(h, decodes, life.fate, p, reached, first) && (first.Going? ==> reached == |h|)
    requires var again := Again(h, decodes, life.fate, p, reached);
             && Tells(run + again, |h|, p') && Tells(run + (again + sent), |h'|, p'')
    requires if first.Dead? then sent == [] && h' == h
             else Answered(life.calls, sent, |h|) && Grown(h, life.calls, sent, h', end)
    ensures SettledTo(p'', h', run + (Again(h, decodes, life.fate, p, reached) + sent), decodes)
  {
    var again := Again(h, decodes, life.fate, p, reached);
    Assoc(run, again, sent);
    ReplayKeeps(h, decodes, life.fate, p, reached, first, run, run + again, p, p');
    if sent == [] {
      assert run + again + [] == run + again;
      StaysSettled(p', h, run + again, h', run + again, decodes);
    } else {
      SendingKeeps(life.calls, sent, h, h', run + again, p', p'', decodes);
    }
  }

  class Forwarder {
    const wal: WAL                        // the spool
    const decodes: seq<byte> -> bool      // the payload reads back as a batch
    ghost var run: seq<Delivery>          // every delivery from this spool, by this process and earlier ones

    ghost predicate Through(n: nat)
      reads this, wal, wal.dir
    {
      SettledTo(n, wal.dir.history, run, decodes)
    }

    /** Nothing is lost: what the next process will not find is settled. */
    ghost predicate Sound()
      reads this, wal, wal.dir
    {
      Through(wal.dir.persisted)
    }

    ghost predicate Told()
      reads this, wal, wal.dir
    {
      Tells(run, |wal.dir.history|, wal.dir.persisted)
    }

    ghost predicate Valid()
      reads this, wal, wal.dir
    {
      wal.Valid() && Told()
    }

    /** What a crash leaves is enough to go on. */
    ghost predicate Kept()
      reads this, wal, wal.dir
    {
      wal.dir.Inv(wal.f) && Told()
    }

    constructor (wal: WAL, decodes: seq<byte> -> bool, ghost run: seq<Delivery>)
      requires wal.Valid() && Tells(run, |wal.dir.history|, wal.dir.persisted)
      ensures Valid() && this.wal == wal && this.decodes == decodes && this.run == run
    {
      this.wal, this.decodes, this.run := wal, decodes, run;
    }

    /** Acknowledges a batch past the checkpoint in memory. */
    method Ack(seqNo: nat, fault: CheckpointFault, stuck: set<nat>) returns (alive: bool)
      requires wal.Valid() && wal.checkpoint < seqNo <= |wal.dir.history|
      modifies wal, wal.dir
      ensures wal.dir.history == old(wal.dir.history)
      ensures if alive then wal.Valid() && wal.checkpoint == seqNo else wal.dir.Inv(wal.f) && fault.Kills()
      ensures wal.dir.persisted == if fault.Renames() then seqNo else old(wal.dir.persisted)
      ensures old(wal.dir.persisted) <= wal.dir.persisted
      ensures forall k :: k in wal.dir.segs ==> k in old(wal.dir.segs) && wal.dir.segs[k] == old(wal.dir.segs)[k]
      ensures forall k :: k in old(wal.dir.segs) && k !in wal.dir.segs ==> k <= seqNo
    {
      var res := wal.SetCheckpoint(seqNo, fault, stuck);
      alive := !res.Died?;
    }

    /** Records how a batch ended: acknowledged once it is accepted or refused for
        good, even if its dead letter could not be written; left in the spool if
        it was abandoned. */
    method Settle(seqNo: nat, fate: Fate) returns (end: Ending)
      requires Valid() && (seqNo == 0 || wal.checkpoint < seqNo <= |wal.dir.history|)
      modifies this, wal, wal.dir
      ensures wal.dir.history == old(wal.dir.history) && run == old(run) + [Made(seqNo, fate)]
      ensures wal.dir.persisted == if Made(seqNo, fate).marked then seqNo else old(wal.dir.persisted)
      ensures !end.Dead? ==> wal.checkpoint <= Max(old(wal.checkpoint), seqNo)
      ensures if end.Dead? then Kept() && Acked(Made(seqNo, fate)) && fate.fault.Kills()
              else Valid() && (end.Stopped? <==> fate.outcome.Abandoned?)
      ensures forall k :: k in wal.dir.segs ==> k in old(wal.dir.segs) && wal.dir.segs[k] == old(wal.dir.segs)[k]
      ensures forall k :: k in old(wal.dir.segs) && k !in wal.dir.segs ==> k <= seqNo
    {
      ghost var before := wal.dir.persisted;
      end := if fate.outcome.Abandoned? then Stopped else Going;
      if !fate.outcome.Abandoned? && seqNo > 0 {
        var alive := Ack(seqNo, fate.fault, fate.stuck);
        end := if alive then Going else Dead;
      }
      TellsMore(run, |wal.dir.history|, before, Made(seqNo, fate), wal.dir.persisted);
      run := run + [Made(seqNo, fate)];
    }

    /** Spools a batch and posts it, whatever became of earlier ones. A batch that
        cannot be spooled is posted all the same. */
    method Deliver(c: Call) returns (end: Ending)
      requires Valid() && |c.payload| <= MAX_RECORD_BYTES && wal.nextSeq + 1 < TWO_64
      modifies this, wal, wal.dir
      ensures if end.Dead? then Kept() else Valid()
      ensures c.add.Kills() ==> end.Dead? && run == old(run) && wal.dir.persisted == old(wal.dir.persisted)
      ensures !c.add.Kills() ==> (end.Dead? ==> c.fate.fault.Kills()) && (end.Stopped? <==> c.fate.outcome.Abandoned?)
      ensures wal.dir.history == old(wal.dir.history)
              || wal.dir.history == old(wal.dir.history) + [c.payload]
      ensures !c.add.Kills() ==>
        && Posted(c, old(wal.dir.history), wal.dir.history, old(run), run)
        && var d := run[|run| - 1]; wal.dir.persisted == if d.marked then d.seqNo else old(wal.dir.persisted)
      ensures old(Through(|wal.dir.history|)) && (c.fate.outcome.Permanent? ==> c.fate.written) ==> Sound()
    {
      ghost var h, run0, p := wal.dir.history, run, wal.dir.persisted;
      var res := wal.Append(c.payload, c.add);
      if old(Through(|wal.dir.history|)) {
        StaysSettled(|h|, h, run, wal.dir.history, run, decodes);
      }
      if res.Crashed? {
        return Dead;
      }
      end := Settle(if res.Appended? then res.seqNo else 0, c.fate);
      if old(Through(|wal.dir.history|)) && (c.fate.outcome.Permanent? ==> c.fate.written) {
        PostedKeeps(c, h, wal.dir.history, run0, run, p, decodes);
      }
    }

    /** The sending loop: every batch that fills, until the process ends. */
    method SendAll(calls: seq<Call>) returns (end: Ending, ghost sent: seq<Delivery>)
      requires Valid() && wal.nextSeq + |calls| < TWO_64
      requires forall c :: c in calls ==> |c.payload| <= MAX_RECORD_BYTES && decodes(c.payload)
      modifies this, wal, wal.dir
      ensures if end.Dead? then Kept() else Valid()
      ensures run == old(run) + sent && Answered(calls, sent, old(|wal.dir.history|))
      ensures if end.Dead? then Killed(calls, |sent|) else |sent| == |calls|
      ensures Grown(old(wal.dir.history), calls, sent, wal.dir.history, end)
      ensures old(Through(|wal.dir.history|)) && Careful(calls) ==> Sound()
    {
      ghost var h0, run0 := wal.dir.history, run;
      end, sent := SendEach(calls);
      if old(Through(|wal.dir.history|)) && Careful(calls) {
        SendingKeeps(calls, sent, h0, wal.dir.history, run0, old(wal.dir.persisted), wal.dir.persisted, decodes);
      }
    }

    method SendEach(calls: seq<Call>) returns (end: Ending, ghost sent: seq<Delivery>)
      requires Valid() && wal.nextSeq + |calls| < TWO_64
      requires forall c :: c in calls ==> |c.payload| <= MAX_RECORD_BYTES && decodes(c.payload)
      modifies this, wal, wal.dir
      ensures if end.Dead? then Kept() else Valid()
      ensures run == old(run) + sent && Answered(calls, sent, old(|wal.dir.history|))
      ensures if end.Dead? then Killed(calls, |sent|) else |sent| == |calls|
      ensures Grown(old(wal.dir.history), calls, sent, wal.dir.history, end)
    {
      end, sent := Going, [];
      ghost var h0, run0 := wal.dir.history, run;
      SentNone(calls, h0, run0);
      for i := 0 to |calls|
        invariant end.Going? && Valid() && wal.nextSeq + |calls| - i < TWO_64
        invariant |sent| == i && Sent(calls, sent, h0, wal.dir.history, run0, run)
      {
        end, sent := SendOne(calls, i, sent, h0, run0);
        if end.Dead? {
          break;
        }
      }
    }

    /** One step of the loop: the next batch, even if the last was abandoned. */
    method SendOne(calls: seq<Call>, i: nat, ghost before: seq<Delivery>, ghost h0: History, ghost run0: seq<Delivery>)
      returns (end: Ending, ghost sent: seq<Delivery>)
      requires Valid() && i < |calls| && |calls[i].payload| <= MAX_RECORD_BYTES && wal.nextSeq + 1 < TWO_64
      requires |before| == i && Sent(calls, before, h0, wal.dir.history, run0, run)
      modifies this, wal, wal.dir
      ensures |sent| <= i + 1 && |wal.dir.history| <= old(|wal.dir.history|) + 1
      ensures run == run0 + sent && Answered(calls, sent, |h0|) && Grown(h0, calls, sent, wal.dir.history, end)
      ensures if end.Dead? then Kept() && Killed(calls, |sent|)
              else Valid() && end.Going? && |sent| == i + 1 && Sent(calls, sent, h0, wal.dir.history, run0, run)
    {
      ghost var h, run1 := wal.dir.history, run;
      sent := before;
      end := Deliver(calls[i]);
      if !calls[i].add.Kills() {
        SentMore(calls, sent, h0, h, wal.dir.history, run0, run1, run);
        sent := sent + [run[|run| - 1]];
        end := if end.Dead? then Dead else Going;
      }
    }

    /** A process: what an earlier one left goes first, and new batches follow even
        if one of those was abandoned. */
    method Run(life: Life) returns (end: Ending, ghost reached: nat, ghost sent: seq<Delivery>)
      requires Valid() && wal.checkpoint == wal.dir.persisted && wal.nextSeq + |life.calls| < TWO_64
      requires forall c :: c in life.calls ==> |c.payload| <= MAX_RECORD_BYTES && decodes(c.payload)
      modifies this, wal, wal.dir
      ensures if end.Dead? then Kept() else Valid()
      ensures Lived(life, old(wal.dir.history), decodes, old(wal.dir.persisted), reached, sent, wal.dir.history, end)
      ensures run == old(run) + (Again(old(wal.dir.history), decodes, life.fate, old(wal.dir.persisted), reached) + sent)
      ensures old(Sound()) && Prudent(life) ==> Sound()
    {
      ghost var h0, p0, run0 := wal.dir.history, wal.dir.persisted, run;
      end, reached := DrainSpool(life.fate);
      ghost var first, p1, again := end, wal.dir.persisted, Again(h0, decodes, life.fate, p0, reached);
      sent := [];
      assert Answered(life.calls, [], |h0|) && h0 + Spool(life.calls, []) == h0;
      if !end.Dead? {
        end, sent := SendAll(life.calls);
      }
      Assoc(run0, again, sent);
      if old(Sound()) && Prudent(life) {
        LifeKeeps(life, decodes, h0, p0, run0, reached, first, p1, sent, end, wal.dir.history, wal.dir.persisted);
      }
    }

    // ----- what an earlier process left ------------------------------------------------

    /** Everything up to a record was visited, in this run or before. */
    ghost predicate At(upto: nat)
      reads this, wal, wal.dir
    {
      Valid() && wal.checkpoint <= upto <= |wal.dir.history|
    }

    /** The records that Replay has still to visit. */
    ghost predicate Ahead(upto: nat, rest: seq<Record>)
      reads this, wal, wal.dir
    {
      upto <= |wal.dir.history| && rest == Recs(wal.dir.history, upto + 1, |wal.dir.history| - upto)
    }

    /** Files that start at bound or later are as they were. */
    twostate predicate LeavesFrom(bound: nat)
      reads this, wal, wal.dir
    {
      forall k :: k in old(wal.dir.segs) && k >= bound ==>
        k in wal.dir.segs && wal.dir.segs[k] == old(wal.dir.segs)[k]
    }

    /** One record of a replay: posted and settled, or passed over when it does
        not read back as a batch. */
    method DrainRecord(r: Record, upto: nat, fate: nat -> Fate, ghost rest: seq<Record>) returns (end: Ending)
      requires At(upto) && Ahead(upto, [r] + rest)
      modifies this, wal, wal.dir
      ensures r.seqNo == upto + 1 <= |wal.dir.history|
      ensures wal.dir.history == old(wal.dir.history) && LeavesFrom(r.seqNo + 1)
      ensures Redo(wal.dir.history, decodes, fate, upto, upto + 1, end, old(run), run)
      ensures if end.Dead? then Kept() else Valid()
      ensures end.Going? ==> At(upto + 1) && Ahead(upto + 1, rest)
      ensures old(Through(upto)) && (fate(r.seqNo).outcome.Permanent? ==> fate(r.seqNo).written) ==> Sound()
    {
      ghost var h, run0, p := wal.dir.history, run, wal.dir.persisted;
      end := PostRecord(r, upto, fate, rest);
      if old(Through(upto)) && Recorded(fate, upto, upto + 1) {
        ReplayKeeps(h, decodes, fate, upto, upto + 1, end, run0, run, p, wal.dir.persisted);
      }
    }

    method PostRecord(r: Record, upto: nat, fate: nat -> Fate, ghost rest: seq<Record>) returns (end: Ending)
      requires At(upto) && Ahead(upto, [r] + rest)
      modifies this, wal, wal.dir
      ensures r.seqNo == upto + 1 <= |wal.dir.history|
      ensures wal.dir.history == old(wal.dir.history) && LeavesFrom(r.seqNo + 1)
      ensures Redo(wal.dir.history, decodes, fate, upto, upto + 1, end, old(run), run)
      ensures if end.Dead? then Kept() else Valid()
      ensures end.Going? ==> At(upto + 1) && Ahead(upto + 1, rest)
    {
      ghost var h, run0 := wal.dir.history, run;
      RecsHead(h, upto + 1, |h| - upto);
      assert ([r] + rest)[0] == r && ([r] + rest)[1..] == rest;
      end := Going;
      if decodes(r.payload) {
        end := Settle(r.seqNo, fate(r.seqNo));
      }
      RedoOne(h, decodes, fate, upto, end, run0, run);
    }

    /** One step of a replay: a record behind the checkpoint is not visited. */
    method DrainNext(records: seq<Record>, i: nat, cp: nat, from: nat, fate: nat -> Fate, ghost later: seq<Record>,
                     ghost bound: nat) returns (upto: nat, end: Ending)
      requires i < |records| && records[i].seqNo < bound
      requires At(from) && Ahead(from, Above(records[i..], cp) + later)
      modifies this, wal, wal.dir
      ensures from <= upto <= |wal.dir.history|
      ensures wal.dir.history == old(wal.dir.history) && LeavesFrom(bound)
      ensures Redo(wal.dir.history, decodes, fate, from, upto, end, old(run), run)
      ensures if end.Dead? then Kept() else Valid()
      ensures end.Going? ==> At(upto) && Ahead(upto, Above(records[i + 1..], cp) + later)
    {
      var r := records[i];
      ghost var more := Above(records[i + 1..], cp);
      assert records[i..][1..] == records[i + 1..];
      if r.seqNo <= cp {
        assert Above(records[i..], cp) == more;
        RedoNothing(wal.dir.history, decodes, fate, from, run);
        return from, Going;
      }
      Assoc([r], more, later);
      end := DrainRecord(r, from, fate, more + later);
      upto := from + 1;
    }

    /** Re-posts the records of one segment, which stays readable even when an
        acknowledgement removes its file. */
    method DrainRecords(records: seq<Record>, cp: nat, from: nat, fate: nat -> Fate, ghost later: seq<Record>, ghost bound: nat)
      returns (upto: nat, end: Ending)
      requires At(from) && Ahead(from, Above(records, cp) + later)
      requires forall r :: r in records ==> r.seqNo < bound
      modifies this, wal, wal.dir
      ensures from <= upto <= |wal.dir.history|
      ensures wal.dir.history == old(wal.dir.history) && LeavesFrom(bound)
      ensures Redo(wal.dir.history, decodes, fate, from, upto, end, old(run), run)
      ensures if end.Dead? then Kept() else Valid()
      ensures end.Going? ==> At(upto) && Ahead(upto, later)
      ensures old(Through(from)) && Recorded(fate, from, upto) ==> Sound()
    {
      upto, end := from, Going;
      ghost var h, run0 := wal.dir.history, run;
      assert records[0..] == records;
      RedoNothing(h, decodes, fate, from, run);
      for i := 0 to |records|
        invariant end.Going? && At(upto) && from <= upto && wal.dir.history == h && LeavesFrom(bound)
        invariant Redo(h, decodes, fate, from, upto, Going, run0, run)
        invariant Ahead(upto, Above(records[i..], cp) + later)
      {
        ghost var mid, run1 := upto, run;
        upto, end := DrainNext(records, i, cp, upto, fate, later, bound);
        RedoJoins(h, decodes, fate, from, mid, upto, end, run0, run1, run);
        if !end.Going? {
          break;
        }
      }
      if end.Going? {
        assert Above(records[|records|..], cp) + later == later;
      }
      if old(Through(from)) && Recorded(fate, from, upto) {
        ReplayKeeps(h, decodes, fate, from, upto, end, run0, run, old(wal.dir.persisted), wal.dir.persisted);
      }
    }

    /** Re-posts everything a previous run left, oldest first. Acknowledging
        removes segments while they are replayed, but never one that Replay has
        still to open. */
    method DrainSpool(fate: nat -> Fate) returns (end: Ending, ghost reached: nat)
      requires Valid()
      modifies this, wal, wal.dir
      ensures wal.dir.history == old(wal.dir.history)
      ensures Redo(wal.dir.history, decodes, fate, old(wal.checkpoint), reached, end, old(run), run)
      ensures if end.Dead? then Kept() else Valid() && (end.Going? ==> reached == |wal.dir.history|)
      ensures old(Through(wal.checkpoint)) && Recorded(fate, old(wal.checkpoint), reached) ==>
        Sound() && (end.Going? ==> Through(|wal.dir.history|))
    {
      ghost var h, run0, p, cp := wal.dir.history, run, wal.dir.persisted, wal.checkpoint;
      end, reached := DrainSegments(fate);
      if old(Through(wal.checkpoint)) && Recorded(fate, cp, reached) {
        ReplayKeeps(h, decodes, fate, cp, reached, end, run0, run, p, wal.dir.persisted);
      }
    }

    /** The segments of the replay, in order. */
    method DrainSegments(fate: nat -> Fate) returns (end: Ending, ghost reached: nat)
      requires Valid()
      modifies this, wal, wal.dir
      ensures wal.dir.history == old(wal.dir.history)
      ensures Redo(wal.dir.history, decodes, fate, old(wal.checkpoint), reached, end, old(run), run)
      ensures if end.Dead? then Kept() else Valid() && (end.Going? ==> reached == |wal.dir.history|)
    {
      ghost var segs, h, run0 := wal.dir.segs, wal.dir.history, run;
      var ks, cp := wal.segments, wal.checkpoint;
      ReplayIsExact(wal.f, segs, h, wal.dir.persisted, ks, cp);
      var upto := cp;
      end := Going;
      assert ks[0..] == ks;
      RedoNothing(h, decodes, fate, cp, run);
      for i := 0 to |ks|
        invariant end.Going? && At(upto) && cp <= upto && wal.dir.history == h
        invariant Redo(h, decodes, fate, cp, upto, Going, run0, run)
        invariant Ahead(upto, Replayed(wal.f, segs, ks[i..], cp)) && Unread(segs, ks, i)
      {
        ghost var mid, run1 := upto, run;
        upto, end := DrainSegment(ks, i, cp, upto, fate, segs, old(wal.dir.persisted));
        RedoJoins(h, decodes, fate, cp, mid, upto, end, run0, run1, run);
        if !end.Going? {
          break;
        }
      }
      reached := upto;
    }

    /** The segments that the replay has still to open are as they were. */
    ghost predicate Unread(segs: Segments, ks: seq<nat>, i: nat)
      requires forall k :: k in ks ==> k in segs
      reads wal.dir
    {
      forall j :: i <= j < |ks| ==> ks[j] in wal.dir.segs && wal.dir.segs[ks[j]] == segs[ks[j]]
    }

    method DrainSegment(ks: seq<nat>, i: nat, cp: nat, from: nat, fate: nat -> Fate, ghost segs: Segments, ghost p: nat)
      returns (upto: nat, end: Ending)
      requires DirInv(wal.f, segs, wal.dir.history, p) && Ascending(ks) && forall k :: k in ks ==> k in segs
      requires i < |ks| && At(from) && Ahead(from, Replayed(wal.f, segs, ks[i..], cp)) && Unread(segs, ks, i)
      modifies this, wal, wal.dir
      ensures from <= upto <= |wal.dir.history| && wal.dir.history == old(wal.dir.history)
      ensures Redo(wal.dir.history, decodes, fate, from, upto, end, old(run), run)
      ensures if end.Dead? then Kept() else Valid()
      ensures end.Going? ==>
        At(upto) && Ahead(upto, Replayed(wal.f, segs, ks[i + 1..], cp)) && Unread(segs, ks, i + 1)
    {
      ghost var later := Replayed(wal.f, segs, ks[i + 1..], cp);
      var records, _, _ := ScanSegment(wal.f, wal.dir.segs[ks[i]]);
      ReplayedStep(wal.f, segs, ks, i, cp);
      SegmentBounds(wal.f, segs, wal.dir.history, p, ks, i);
      upto, end := DrainRecords(records, cp, from, fate, later, ks[i] + Count(wal.f, segs, ks[i]));
    }
  }

  /** The records of a listed segment come before those of every later one. */
  lemma SegmentBounds(f: LawfulFormat, segs: Segments, h: History, p: nat, ks: seq<nat>, i: nat)
    requires DirInv(f, segs, h, p) && Ascending(ks) && (forall k :: k in ks ==> k in segs) && i < |ks|
    ensures forall r :: r in Scan(f, segs[ks[i]]).records ==> r.seqNo < ks[i] + Count(f, segs, ks[i])
    ensures forall j :: i < j < |ks| ==> ks[i] + Count(f, segs, ks[i]) <= ks[j]
  {
    assert HoldsAt(f, segs, h, ks[i]);
    forall j | i < j < |ks| ensures ks[i] + Count(f, segs, ks[i]) <= ks[j] {
      assert Before(f, segs, ks[i], ks[j]);
    }
  }

  /** The next process finds on the disk, oldest first, exactly the batches above
      the persisted checkpoint, whatever the last one did before it ended. */
  method Reopen(dir: Dir, f: LawfulFormat, decodes: seq<byte> -> bool, ghost run: seq<Delivery>)
    returns (forwarder: Forwarder, pending: seq<Record>)
    requires dir.Inv(f) && Tells(run, |dir.history|, dir.persisted)
    modifies dir
    ensures dir.history == old(dir.history) && dir.persisted == old(dir.persisted)
    ensures fresh(forwarder) && forwarder.wal.dir == dir && forwarder.Valid() && forwarder.run == run
    ensures forwarder.decodes == decodes && fresh(forwarder.wal) && forwarder.wal.f == f
    ensures forwarder.wal.checkpoint == dir.persisted
    ensures pending == Recs(dir.history, dir.persisted + 1, |dir.history| - dir.persisted)
    ensures forall s :: 1 <= s <= |dir.history| ==>
      (Record(s, dir.history[s - 1]) in pending <==> !MarkedFrom(run, s))
    ensures forall s: nat :: Lost(s, dir.history, run, decodes) <==>
      1 <= s <= |dir.history| && !Settled(s, dir.history, run, decodes) && Record(s, dir.history[s - 1]) !in pending
  {
    var wal := new WAL.Open(dir, f, 0, false);
    forwarder := new Forwarder(wal, decodes, run);
    pending := wal.Replay();
    forall s | 1 <= s <= |dir.history|
      ensures Record(s, dir.history[s - 1]) in pending <==> !MarkedFrom(run, s)
    {
      MarkedIsPersisted(run, |dir.history|, dir.persisted, s);
      if s > dir.persisted {
        assert pending[s - dir.persisted - 1] == Record(s, dir.history[s - 1]);
      }
    }
  }

  // ----- which batches are lost ----------------------------------------------------------

  /** A record is behind the checkpoint file exactly when an acknowledgement at it
      or past it was written. */
  lemma MarkedIsPersisted(run: seq<Delivery>, n: nat, persisted: nat, s: nat)
    requires Tells(run, n, persisted) && s > 0
    ensures MarkedFrom(run, s) <==> s <= persisted
  {
  }

  /** A spooled batch is lost when no delivery of it was safe and an
      acknowledgement at it or past it was written. The next process then does
      not find it, and otherwise it does. */
  ghost predicate Lost(s: nat, h: History, run: seq<Delivery>, decodes: seq<byte> -> bool) {
    1 <= s <= |h| && decodes(h[s - 1]) && !SafeIn(run, s) && MarkedFrom(run, s)
  }

  /** A batch that never was in the spool is lost when its one delivery was not
      safe. */
  predicate Gone(d: Delivery) {
    d.seqNo == 0 && !Safe(d)
  }

  ghost predicate Loses(h: History, run: seq<Delivery>, decodes: seq<byte> -> bool) {
    (exists s: nat :: Lost(s, h, run, decodes)) || exists d :: d in run && Gone(d)
  }

  ghost predicate PostedIn(run: seq<Delivery>, s: nat) {
    exists d :: d in run && d.seqNo == s
  }

  /** The spooled batches were posted in order, and each up to n was. */
  ghost predicate Numbered(run: seq<Delivery>, n: nat) {
    && (forall i, j :: 0 <= i < j < |run| && run[i].seqNo > 0 && run[j].seqNo > 0 ==> run[i].seqNo < run[j].seqNo)
    && (forall s :: 1 <= s <= n ==> PostedIn(run, s))
  }

  /** Something unsafe was spooled, and it or a later batch was acknowledged. */
  ghost predicate PassesUnsafe(run: seq<Delivery>) {
    exists i: nat, j: nat :: i <= j < |run| && run[i].seqNo > 0 && !Safe(run[i]) && run[j].marked
  }

  /** A process on a new spool loses a batch if and only if it acknowledged, in the
      checkpoint file, a batch it had abandoned or could not record, or one after
      it; or if a batch that could not be spooled was not delivered either. */
  lemma LosesExactlyWhen(run: seq<Delivery>, h: History, persisted: nat, decodes: seq<byte> -> bool)
    requires Tells(run, |h|, persisted) && Numbered(run, persisted)
    requires forall i :: 0 <= i < |h| ==> decodes(h[i])
    ensures Loses(h, run, decodes) <==> PassesUnsafe(run) || exists d :: d in run && Gone(d)
  {
    if s: nat :| Lost(s, h, run, decodes) {
      LostPassesUnsafe(run, |h|, persisted, s);
    }
    if i: nat, j: nat :| i <= j < |run| && run[i].seqNo > 0 && !Safe(run[i]) && run[j].marked {
      PassedIsLost(run, |h|, persisted, i, j);
      assert Lost(run[i].seqNo, h, run, decodes);
    }
  }

  lemma LostPassesUnsafe(run: seq<Delivery>, n: nat, persisted: nat, s: nat)
    requires Tells(run, n, persisted) && Numbered(run, persisted)
    requires s > 0 && !SafeIn(run, s) && MarkedFrom(run, s)
    ensures PassesUnsafe(run)
  {
    MarkedIsPersisted(run, n, persisted, s);
    assert PostedIn(run, s);
    var m :| m in run && m.marked && s <= m.seqNo;
    var d :| d in run && d.seqNo == s;
    var i: nat :| i < |run| && run[i] == d;
    var j: nat :| j < |run| && run[j] == m;
    assert !Safe(run[i]) && !(j < i);
  }

  lemma PassedIsLost(run: seq<Delivery>, n: nat, persisted: nat, i: nat, j: nat)
    requires Tells(run, n, persisted) && Numbered(run, persisted)
    requires i <= j < |run| && run[i].seqNo > 0 && !Safe(run[i]) && run[j].marked
    ensures !SafeIn(run, run[i].seqNo) && MarkedFrom(run, run[i].seqNo) && run[i].seqNo <= n
  {
    assert run[i] in run && run[j] in run;
    forall d | d in run && d.seqNo == run[i].seqNo ensures d == run[i] {
      var k: nat :| k < |run| && run[k] == d;
    }
    assert run[i].seqNo <= run[j].seqNo;
  }

  lemma {:induction false} AnsweredIsNumbered(calls: seq<Call>, sent: seq<Delivery>)
    requires Answered(calls, sent, 0)
    ensures Numbered(sent, |Spool(calls, sent)|) && forall d :: d in sent ==> d.seqNo <= |Spool(calls, sent)|
    decreases |sent|
  {
    if sent != [] {
      var k := |sent| - 1;
      AnsweredIsNumbered(calls, sent[..k]);
      NumberedMore(sent[..k], |Spool(calls, sent[..k])|, sent[k]);
      assert sent == sent[..k] + [sent[k]];
    }
  }

  lemma NumberedMore(run: seq<Delivery>, n: nat, d: Delivery)
    requires Numbered(run, n) && (forall x :: x in run ==> x.seqNo <= n) && d.seqNo in {0, n + 1}
    ensures Numbered(run + [d], if d.seqNo == 0 then n else n + 1)
  {
    var run' := run + [d];
    forall s | 1 <= s <= if d.seqNo == 0 then n else n + 1 ensures PostedIn(run', s) {
      if s <= n {
        assert PostedIn(run, s);
        var x :| x in run && x.seqNo == s;
        assert x in run';
      } else {
        assert d in run' && d.seqNo == s;
      }
    }
  }

  /** From an empty directory to what the next process finds. The deliveries are
      those of the calls. */
  method FirstProcess(f: LawfulFormat, decodes: seq<byte> -> bool, calls: seq<Call>)
    returns (dir: Dir, pending: seq<Record>, end: Ending, ghost run: seq<Delivery>)
    requires |calls| + 1 < TWO_64
    requires forall c :: c in calls ==> |c.payload| <= MAX_RECORD_BYTES && decodes(c.payload)
    ensures Answered(calls, run, 0) && Grown([], calls, run, dir.history, end)
    ensures if end.Dead? then Killed(calls, |run|) else |run| == |calls|
    ensures Loses(dir.history, run, decodes) <==> PassesUnsafe(run) || exists d :: d in run && Gone(d)
    ensures forall s :: 1 <= s <= |dir.history| ==>
      (Lost(s, dir.history, run, decodes) <==> !SafeIn(run, s) && Record(s, dir.history[s - 1]) !in pending)
    ensures dir.history == [] ==> pending == []
  {
    dir, end, run := FirstRun(f, decodes, calls);
    FirstLoses(calls, run, dir.history, dir.persisted, end, decodes);
    var _, left := Reopen(dir, f, decodes, run);
    pending := left;
  }

  method FirstRun(f: LawfulFormat, decodes: seq<byte> -> bool, calls: seq<Call>)
    returns (dir: Dir, end: Ending, ghost run: seq<Delivery>)
    requires |calls| + 1 < TWO_64
    requires forall c :: c in calls ==> |c.payload| <= MAX_RECORD_BYTES && decodes(c.payload)
    ensures fresh(dir) && dir.Inv(f) && Tells(run, |dir.history|, dir.persisted)
    ensures Answered(calls, run, 0) && Grown([], calls, run, dir.history, end)
    ensures if end.Dead? then Killed(calls, |run|) else |run| == |calls|
  {
    dir := new Dir(f);
    var forwarder, _ := Reopen(dir, f, decodes, []);
    end, run := forwarder.SendAll(calls);
    assert [] + run == run;
  }

  lemma FirstLoses(calls: seq<Call>, run: seq<Delivery>, h: History, persisted: nat, end: Ending, decodes: seq<byte> -> bool)
    requires Answered(calls, run, 0) && Grown([], calls, run, h, end) && Tells(run, |h|, persisted)
    requires forall c :: c in calls ==> decodes(c.payload)
    ensures Loses(h, run, decodes) <==> PassesUnsafe(run) || exists d :: d in run && Gone(d)
    ensures forall i :: 0 <= i < |h| ==> decodes(h[i])
  {
    AnsweredIsNumbered(calls, run);
    SpoolIsSent(calls, run);
    assert persisted <= |Spool(calls, run)|;
    assert [] + Spool(calls, run) == Spool(calls, run);
    forall i | 0 <= i < |h| ensures decodes(h[i]) {
      if i < |Spool(calls, run)| {
        assert h[i] in Spool(calls, run);
      } else {
        assert calls[|run|] in calls;
      }
    }
    LosesExactlyWhen(run, h, persisted, decodes);
  }

  lemma {:induction false} SpoolIsSent(calls: seq<Call>, sent: seq<Delivery>)
    requires |sent| <= |calls|
    ensures forall p :: p in Spool(calls, sent) ==> exists c :: c in calls && c.payload == p
    decreases |sent|
  {
    if sent != [] {
      SpoolIsSent(calls, sent[..|sent| - 1]);
      assert calls[|sent| - 1] in calls;
    }
  }

  // ----- any number of processes -------------------------------------------------------------

  function CallsIn(lives: seq<Life>): nat {
    if lives == [] then 0 else |lives[0].calls| + CallsIn(lives[1..])
  }

  function Flat(parts: seq<seq<Delivery>>): seq<Delivery> {
    if parts == [] then [] else Flat(parts[..|parts| - 1]) + parts[|parts| - 1]
  }

  datatype Disk = Disk(history: History, persisted: nat)

  /** What a process made of its spool. */
  ghost predicate Turns(life: Life, decodes: seq<byte> -> bool, before: Disk, part: seq<Delivery>, after: Disk) {
    exists reached: nat, sent, end ::
      && reached <= |before.history|
      && Lived(life, before.history, decodes, before.persisted, reached, sent, after.history, end)
      && part == Again(before.history, decodes, life.fate, before.persisted, reached) + sent
  }

  ghost predicate AllPrudent(lives: seq<Life>) {
    forall life :: life in lives ==> Prudent(life)
  }

  /** The first processes, from an empty directory, and what each left. */
  ghost predicate Follow(lives: seq<Life>, decodes: seq<byte> -> bool, disks: seq<Disk>, parts: seq<seq<Delivery>>) {
    && |parts| <= |lives| && |disks| == |parts| + 1 && disks[0] == Disk([], 0)
    && forall k :: 0 <= k < |parts| ==> Turns(lives[k], decodes, disks[k], parts[k], disks[k + 1])
  }

  lemma FollowMore(lives: seq<Life>, decodes: seq<byte> -> bool, disks: seq<Disk>, parts: seq<seq<Delivery>>,
                   part: seq<Delivery>, disk: Disk)
    requires Follow(lives, decodes, disks, parts) && |parts| < |lives|
    requires Turns(lives[|parts|], decodes, disks[|parts|], part, disk)
    ensures Follow(lives, decodes, disks + [disk], parts + [part])
    ensures Flat(parts + [part]) == Flat(parts) + part
  {
    var disks', parts' := disks + [disk], parts + [part];
    assert parts'[..|parts|] == parts;
    forall k | 0 <= k < |parts'| ensures Turns(lives[k], decodes, disks'[k], parts'[k], disks'[k + 1]) {
      if k < |parts| {
        assert disks'[k] == disks[k] && disks'[k + 1] == disks[k + 1] && parts'[k] == parts[k];
      }
    }
  }

  /** Any number of processes, one after the other on the same spool, each ended by
      a crash anywhere or not. A batch is lost exactly when the last process finds
      it no more and it was never safe; and none is if every process ended with
      its first abandoned batch and could write its dead letters. */
  method Lives(f: LawfulFormat, decodes: seq<byte> -> bool, lives: seq<Life>)
    returns (dir: Dir, pending: seq<Record>, ghost disks: seq<Disk>, ghost parts: seq<seq<Delivery>>)
    requires CallsIn(lives) + 1 < TWO_64 && forall life :: life in lives ==> Sendable(life, decodes)
    ensures |parts| == |lives| && Follow(lives, decodes, disks, parts)
    ensures disks[|lives|] == Disk(dir.history, dir.persisted)
    ensures forall s: nat :: Lost(s, dir.history, Flat(parts), decodes) <==>
      && 1 <= s <= |dir.history| && !Settled(s, dir.history, Flat(parts), decodes)
      && Record(s, dir.history[s - 1]) !in pending
    ensures AllPrudent(lives) ==> forall s: nat ::
      1 <= s <= |dir.history| ==>
        Settled(s, dir.history, Flat(parts), decodes) || Record(s, dir.history[s - 1]) in pending
  {
    dir := new Dir(f);
    disks, parts := [Disk([], 0)], [];
    assert lives[0..] == lives;
    for k := 0 to |lives|
      invariant fresh(dir) && dir.Inv(f)
      invariant |dir.history| + CallsIn(lives[k..]) + 1 < TWO_64
      invariant |parts| == k && Follow(lives, decodes, disks, parts)
      invariant disks[k] == Disk(dir.history, dir.persisted)
      invariant Tells(Flat(parts), |dir.history|, dir.persisted)
      invariant AllPrudent(lives) ==> SettledTo(dir.persisted, dir.history, Flat(parts), decodes)
    {
      assert lives[k..][1..] == lives[k + 1..] && lives[k] in lives;
      ghost var part := OneLife(dir, f, decodes, lives[k], Flat(parts));
      FollowMore(lives, decodes, disks, parts, part, Disk(dir.history, dir.persisted));
      parts, disks := parts + [part], disks + [Disk(dir.history, dir.persisted)];
    }
    var _, left := Reopen(dir, f, decodes, Flat(parts));
    pending := left;
  }

  /** One of them. */
  method OneLife(dir: Dir, f: LawfulFormat, decodes: seq<byte> -> bool, life: Life, ghost run: seq<Delivery>)
    returns (ghost part: seq<Delivery>)
    requires dir.Inv(f) && Tells(run, |dir.history|, dir.persisted)
    requires |dir.history| + |life.calls| + 1 < TWO_64 && Sendable(life, decodes)
    modifies dir
    ensures dir.Inv(f) && Tells(run + part, |dir.history|, dir.persisted)
    ensures |dir.history| <= old(|dir.history|) + |life.calls|
    ensures Turns(life, decodes, old(Disk(dir.history, dir.persisted)), part, Disk(dir.history, dir.persisted))
    ensures SettledTo(old(dir.persisted), old(dir.history), run, decodes) && Prudent(life) ==>
      SettledTo(dir.persisted, dir.history, run + part, decodes)
  {
    var forwarder, _ := Reopen(dir, f, decodes, run);
    ghost var end, reached, sent;
    end, reached, sent := forwarder.Run(life);
    part := Again(old(dir.history), decodes, life.fate, old(dir.persisted), reached) + sent;
    assert Lived(life, old(dir.history), decodes, old(dir.persisted), reached, sent, dir.history, end);
  }

  // ----- inputs that lose a batch, and inputs that nearly do ------------------------------

  /** Going on after an abandoned batch, or failing to record a refused one, loses
      nothing while no acknowledgement is written. */
  lemma KeptWhileUnmarked(a: seq<byte>, b: seq<byte>, decodes: seq<byte> -> bool)
    ensures !Loses([a, b], [Delivery(1, Abandoned, true, false), Delivery(2, Delivered, true, false)], decodes)
    ensures !Loses([a], [Delivery(1, Permanent, false, false)], decodes)
  {
  }

  /** Written acknowledgements lose the batch before, or the refused batch; so does
      a spool that refuses a batch which is then abandoned. */
  lemma LostOnceMarked(a: seq<byte>, b: seq<byte>, decodes: seq<byte> -> bool)
    requires decodes(a)
    ensures Lost(1, [a, b], [Delivery(1, Abandoned, true, false), Delivery(2, Delivered, true, true)], decodes)
    ensures Lost(1, [a], [Delivery(1, Permanent, false, true)], decodes)
    ensures Loses([], [Delivery(0, Abandoned, true, false)], decodes)
  {
    var past, unwritten := Delivery(2, Delivered, true, true), Delivery(1, Permanent, false, true);
    assert past in [Delivery(1, Abandoned, true, false), past] && unwritten in [unwritten];
    assert Gone([Delivery(0, Abandoned, true, false)][0]);
  }

  /** A batch abandoned and the next one delivered: the first is lost if the
      acknowledgement reaches the checkpoint file, and not if it does not. */
  method AbandonedThenDelivered(f: LawfulFormat, decodes: seq<byte> -> bool, a: seq<byte>, b: seq<byte>, fault: CheckpointFault)
    returns (dir: Dir, pending: seq<Record>, ghost run: seq<Delivery>)
    requires |a| <= MAX_RECORD_BYTES && |b| <= MAX_RECORD_BYTES && decodes(a) && decodes(b)
    ensures dir.history == [a, b]
    ensures fault.Renames() ==> Lost(1, dir.history, run, decodes) && Record(1, a) !in pending
    ensures !fault.Renames() ==> !Loses(dir.history, run, decodes) && Record(1, a) in pending
  {
    var calls := [Call(a, NoFault, Fate(Abandoned, true, NoCheckpointFault, {})), Call(b, NoFault, Fate(Delivered, true, fault, {}))];
    var end;
    dir, pending, end, run := FirstProcess(f, decodes, calls);
    TwoCalls(calls, run, dir.history, end);
    TwoDeliveries(a, b, calls[0].fate, calls[1].fate, decodes);
  }

  lemma TwoDeliveries(a: seq<byte>, b: seq<byte>, first: Fate, second: Fate, decodes: seq<byte> -> bool)
    requires first.outcome.Abandoned? && second.outcome.Delivered? && decodes(a)
    ensures var run := [Made(1, first), Made(2, second)];
            && !SafeIn(run, 1)
            && (second.fault.Renames() ==> Lost(1, [a, b], run, decodes))
            && (!second.fault.Renames() ==> !Loses([a, b], run, decodes))
  {
    var run := [Made(1, first), Made(2, second)];
    assert run[1] in run;
  }

  lemma TwoCalls(calls: seq<Call>, run: seq<Delivery>, h: History, end: Ending)
    requires |calls| == 2 && calls[0].add.NoFault? && calls[1].add.NoFault? && !calls[0].fate.fault.Kills()
    requires Answered(calls, run, 0) && Grown([], calls, run, h, end)
    requires if end.Dead? then Killed(calls, |run|) else |run| == |calls|
    ensures run == [Made(1, calls[0].fate), Made(2, calls[1].fate)] && h == [calls[0].payload, calls[1].payload]
  {
    assert |run| == 2;
    assert run[..1][..0] == [];
    assert Spool(calls, run[..1]) == [calls[0].payload];
    assert Spool(calls, run) == [calls[0].payload, calls[1].payload];
  }

  /** A batch refused for good whose dead letter cannot be written: the same. */
  method RefusedAndUnwritten(f: LawfulFormat, decodes: seq<byte> -> bool, a: seq<byte>, fault: CheckpointFault)
    returns (dir: Dir, pending: seq<Record>, ghost run: seq<Delivery>)
    requires |a| <= MAX_RECORD_BYTES && decodes(a)
    ensures dir.history == [a]
    ensures fault.Renames() ==> Lost(1, dir.history, run, decodes) && Record(1, a) !in pending
    ensures !fault.Renames() ==> !Loses(dir.history, run, decodes) && Record(1, a) in pending
  {
    var calls := [Call(a, NoFault, Fate(Permanent, false, fault, {}))];
    var end;
    dir, pending, end, run := FirstProcess(f, decodes, calls);
    OneCall(calls, run, dir.history, end);
    assert !SafeIn(run, 1) && run[0] in run;
  }

  /** A batch that cannot be spooled and is then abandoned is lost. */
  method UnspooledAndAbandoned(f: LawfulFormat, decodes: seq<byte> -> bool, a: seq<byte>)
    returns (dir: Dir, pending: seq<Record>, ghost run: seq<Delivery>)
    requires |a| <= MAX_RECORD_BYTES && decodes(a)
    ensures dir.history == [] && pending == [] && Loses(dir.history, run, decodes)
  {
    var calls := [Call(a, WriteFault(0), Fate(Abandoned, true, NoCheckpointFault, {}))];
    var end;
    dir, pending, end, run := FirstProcess(f, decodes, calls);
    OneCall(calls, run, dir.history, end);
    assert Gone(run[0]) && run[0] in run;
  }

  lemma OneCall(calls: seq<Call>, run: seq<Delivery>, h: History, end: Ending)
    requires |calls| == 1 && (calls[0].add.NoFault? || calls[0].add.WriteFault?)
    requires Answered(calls, run, 0) && Grown([], calls, run, h, end)
    requires if end.Dead? then Killed(calls, |run|) else |run| == |calls|
    ensures run == [Made(if calls[0].add.NoFault? then 1 else 0, calls[0].fate)]
    ensures h == if calls[0].add.NoFault? then [calls[0].payload] else []
  {
    assert |run| == 1;
    assert run[..0] == [];
    assert Spool(calls, run) == if run[0].seqNo > 0 then [calls[0].payload] else [];
  }
}
