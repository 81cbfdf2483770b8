/** The batching ingestor over the write-ahead log: an interleaving of its
    atomic steps with failures and crashes, and crash safety over every run. */
module Ingest {
  import opened Bytes
  import opened Model

  datatype Queued = Queued(event: LogEvent, seqNo: nat)

  /** Where the batch writer is: collecting, or between the steps of a flush. */
  datatype Stage = Collecting | Synced | Written | Settled

  datatype Process =
    | Down
    | Recovering(pos: nat)   // records up to pos are back in the store
    | Running(
        inFlight: Option<Queued>,  // appended to the log, not yet in the queue
        queue: seq<Queued>,
        batch: seq<Queued>,
        stage: Stage,
        stalled: bool,
        closed: bool,
        checkpoint: nat)           // the checkpoint in memory

  /** The disk (log, persisted checkpoint, store), the process, and what callers
      were told: which records were accepted and which events refused. */
  datatype System = System(
    history: seq<LogEvent>,   // the event of record s is history[s - 1]
    persisted: nat,
    store: Events,
    process: Process,
    accepted: set<nat>,
    refused: set<string>)

  datatype Step =
    | EnqueueRefused(e: LogEvent)
    | EnqueueAppend(e: LogEvent)
    | EnqueueSend
    | Receive
    | FlushSync(ok: bool)
    | FlushStore(ok: bool)
    | FlushCheckpoint(ok: bool)
    | FlushEnd
    | Stop
    | Crash(torn: Option<LogEvent>, renamed: bool)
    | Open
    | RecoverFlush(count: nat, ok: bool)
    | RecoverFinish(ok: bool)

  function EventsOf(qs: seq<Queued>): (es: seq<LogEvent>)
    ensures |es| == |qs|
  {
    seq(|qs|, i requires 0 <= i < |qs| => qs[i].event)
  }

  function LastSeq(batch: seq<Queued>): nat {
    if batch == [] then 0 else batch[|batch| - 1].seqNo
  }

  /** Server-assigned IDs are never reused. */
  predicate Unused(s: System, e: LogEvent) {
    e.id !in s.refused && forall i :: 0 <= i < |s.history| ==> s.history[i].id != e.id
  }

  predicate Enabled(s: System, step: Step) {
    match step
    case EnqueueRefused(e) => s.process.Running? && s.process.inFlight.None? && Unused(s, e)
    case EnqueueAppend(e) =>
      s.process.Running? && s.process.inFlight.None? && !s.process.closed && Unused(s, e)
    case EnqueueSend => s.process.Running? && s.process.inFlight.Some?
    case Receive => s.process.Running? && s.process.stage.Collecting? && s.process.queue != []
    case FlushSync(_) => s.process.Running? && s.process.stage.Collecting? && s.process.batch != []
    case FlushStore(_) => s.process.Running? && s.process.stage.Synced?
    case FlushCheckpoint(_) => s.process.Running? && s.process.stage.Written?
    case FlushEnd => s.process.Running? && s.process.stage.Settled?
    case Stop => s.process.Running? && s.process.inFlight.None?
    case Crash(torn, renamed) =>
      && !s.process.Down?
      && (torn.Some? ==> s.process.Running? && s.process.inFlight.None? && !s.process.closed && Unused(s, torn.value))
      && (renamed ==> match s.process
                      case Running(_, _, _, stage, stalled, _, _) => stage.Written? && !stalled
                      case Recovering(pos) => pos == |s.history|
                      case Down => false)
    case Open => s.process.Down?
    case RecoverFlush(count, _) => s.process.Recovering? && s.process.pos + count <= |s.history|
    case RecoverFinish(_) => s.process.Recovering? && s.process.pos == |s.history|
  }

  function Next(s: System, step: Step): System
    requires Enabled(s, step)
  {
    var p := s.process;
    match step
    case EnqueueRefused(e) => s.(refused := s.refused + {e.id})
    case EnqueueAppend(e) =>
      s.(history := s.history + [e], process := p.(inFlight := Some(Queued(e, |s.history| + 1))))
    case EnqueueSend =>
      s.(process := p.(inFlight := None, queue := p.queue + [p.inFlight.value]),
         accepted := s.accepted + {p.inFlight.value.seqNo})
    case Receive => s.(process := p.(batch := p.batch + [p.queue[0]], queue := p.queue[1..]))
    case FlushSync(ok) => s.(process := p.(stage := Synced, stalled := p.stalled || !ok))
    case FlushStore(ok) =>
      if ok then s.(store := Upsert(s.store, EventsOf(p.batch)), process := p.(stage := Written))
      else s.(process := p.(stage := Settled, stalled := true))
    case FlushCheckpoint(ok) =>
      var done, last := p.(stage := Settled), LastSeq(p.batch);
      if p.stalled then s.(process := done)
      else s.(persisted := if ok then Checkpointed(s.persisted, p.checkpoint, last) else s.persisted,
              process := done.(stalled := !ok, checkpoint := Max(p.checkpoint, last)))
    case FlushEnd => s.(process := p.(stage := Collecting, batch := []))
    case Stop => s.(process := p.(closed := true))
    case Crash(torn, renamed) =>
      s.(history := if torn.Some? then s.history + [torn.value] else s.history,
         persisted := if !renamed then s.persisted
                      else if p.Running? then Checkpointed(s.persisted, p.checkpoint, LastSeq(p.batch))
                      else |s.history|,
         process := Down)
    case Open => s.(process := Recovering(s.persisted))
    case RecoverFlush(count, ok) =>
      if ok then s.(store := Upsert(s.store, s.history[p.pos..p.pos + count]), process := Recovering(p.pos + count))
      else s.(process := Down)
    case RecoverFinish(ok) =>
      if ok then s.(persisted := |s.history|,
                    process := Running(None, [], [], Collecting, false, false, |s.history|))
      else s.(process := Down)
  }

  /** SetCheckpoint ignores anything not above the checkpoint in memory. */
  function Checkpointed(persisted: nat, checkpoint: nat, seqNo: nat): nat {
    if seqNo <= checkpoint then persisted else seqNo
  }

  // ----- the invariant of the whole system --------------------------------------

  ghost predicate Distinct(h: seq<LogEvent>) {
    forall i, j :: 0 <= i < j < |h| ==> h[i].id != h[j].id
  }

  ghost predicate StoredBelow(h: seq<LogEvent>, store: Events, n: nat) {
    forall i {:trigger h[i]} :: 0 <= i < n && i < |h| ==> Stored(store, h[i])
  }

  /** The store holds nothing but logged events. */
  ghost predicate FromLog(h: seq<LogEvent>, store: Events) {
    forall id :: id in store ==> store[id] in h && store[id].id == id
  }

  function Pending(p: Process): seq<Queued>
    requires p.Running?
  {
    p.batch + p.queue + if p.inFlight.Some? then [p.inFlight.value] else []
  }

  /** The last n records of the log, as they were queued. */
  function LastOf(h: seq<LogEvent>, n: nat): (qs: seq<Queued>)
    requires n <= |h|
    ensures |qs| == n
  {
    seq(n, j requires 0 <= j < n => Queued(h[|h| - n + j], |h| - n + j + 1))
  }

  /** What is pending is exactly the end of the log, in order, and above the
      checkpoint. While the checkpoint is not stalled it is persisted, and
      everything before what is pending is stored. */
  ghost predicate RunningInv(h: seq<LogEvent>, persisted: nat, store: Events, p: Process)
    requires p.Running?
  {
    && persisted <= p.checkpoint <= |h|
    && |Pending(p)| <= |h|
    && p.checkpoint <= |h| - |Pending(p)| + (if p.stage.Settled? then |p.batch| else 0)
    && (!p.stalled ==> persisted == p.checkpoint)
    && Pending(p) == LastOf(h, |Pending(p)|)
    && (!p.stage.Collecting? ==> p.batch != [])
    && (p.stage.Written? || (p.stage.Settled? && !p.stalled) ==>
          forall j :: 0 <= j < |p.batch| ==> Stored(store, p.batch[j].event))
    && (!p.stalled ==> StoredBelow(h, store, |h| - |Pending(p)|))
  }

  ghost predicate Inv(s: System) {
    match s
    case System(h, persisted, store, process, accepted, refused) =>
      && Distinct(h)
      && (forall i :: 0 <= i < |h| ==> h[i].id !in refused)
      && FromLog(h, store)
      && persisted <= |h|
      && StoredBelow(h, store, persisted)
      && (forall q :: q in accepted ==> 1 <= q <= |h|)
      && ProcessInv(h, persisted, store, process)
  }

  ghost predicate ProcessInv(h: seq<LogEvent>, persisted: nat, store: Events, process: Process) {
    match process
    case Down => true
    case Recovering(pos) => persisted <= pos <= |h| && StoredBelow(h, store, pos)
    case Running(_, _, _, _, _, _, _) => RunningInv(h, persisted, store, process)
  }

  function Initial(): System { System([], 0, map[], Down, {}, {}) }

  /** Writing logged events keeps whatever was stored, and stores them. */
  lemma LoggedUpsert(h: seq<LogEvent>, store: Events, batch: seq<LogEvent>)
    requires Distinct(h) && FromLog(h, store) && forall e :: e in batch ==> e in h
    ensures FromLog(h, Upsert(store, batch))
    ensures forall e {:trigger Stored(Upsert(store, batch), e)} ::
              e in h && (Stored(store, e) || e in batch) ==> Stored(Upsert(store, batch), e)
  {
    var store' := Upsert(store, batch);
    forall id | id in store' ensures store'[id] in h && store'[id].id == id {
      UpsertFinds(store, batch, id);
    }
    forall e | e in h && (Stored(store, e) || e in batch) ensures Stored(store', e) {
      UpsertStores(store, batch, e);
    }
  }

  /** Logging one more event, whether it is then in flight or left behind. */
  lemma LoggedMore(s: System, e: LogEvent)
    requires Inv(s) && Unused(s, e)
    ensures Inv(s.(history := s.history + [e], process := Down))
  {
    var h := s.history + [e];
    assert forall i :: 0 <= i < |s.history| ==> h[i] == s.history[i];
  }

  lemma AppendInv(s: System, e: LogEvent)
    requires Inv(s) && Enabled(s, EnqueueAppend(e))
    ensures Inv(Next(s, EnqueueAppend(e)))
  {
    var s' := Next(s, EnqueueAppend(e));
    LoggedMore(s, e);
    var n := |Pending(s.process)|;
    assert Pending(s'.process) == Pending(s.process) + [Queued(e, |s.history| + 1)];
    assert LastOf(s'.history, n + 1) == LastOf(s.history, n) + [Queued(e, |s.history| + 1)];
  }

  lemma MoveInv(s: System, step: Step)
    requires Inv(s) && Enabled(s, step) && (step.EnqueueSend? || step.Receive?)
    ensures Inv(Next(s, step))
  {
    var s' := Next(s, step);
    assert Pending(s'.process) == Pending(s.process);
    if step.EnqueueSend? {
      assert Pending(s.process)[|Pending(s.process)| - 1] == s.process.inFlight.value;
    }
  }

  /** The events of a batch are logged, and their last sequence number is where
      the batch ends in the log. */
  lemma BatchIsLogged(s: System)
    requires Inv(s) && s.process.Running?
    ensures var p, h := s.process, s.history;
      && (forall e :: e in EventsOf(p.batch) ==> e in h)
      && (p.batch != [] ==> LastSeq(p.batch) == |h| - |Pending(p)| + |p.batch|)
  {
    var p, h := s.process, s.history;
    var lo := |h| - |Pending(p)|;
    forall j | 0 <= j < |p.batch| ensures p.batch[j] == Queued(h[lo + j], lo + j + 1) {
      assert Pending(p)[j] == p.batch[j];
    }
  }

  lemma FlushStoreInv(s: System, ok: bool)
    requires Inv(s) && Enabled(s, FlushStore(ok))
    ensures Inv(Next(s, FlushStore(ok)))
  {
    var p, s' := s.process, Next(s, FlushStore(ok));
    assert Pending(s'.process) == Pending(p);
    if ok {
      BatchIsLogged(s);
      LoggedUpsert(s.history, s.store, EventsOf(p.batch));
      forall j | 0 <= j < |p.batch| ensures Stored(s'.store, p.batch[j].event) {
        assert p.batch[j].event == EventsOf(p.batch)[j];
      }
    }
  }

  lemma FlushCheckpointInv(s: System, ok: bool)
    requires Inv(s) && Enabled(s, FlushCheckpoint(ok))
    ensures Inv(Next(s, FlushCheckpoint(ok)))
  {
    assert Pending(Next(s, FlushCheckpoint(ok)).process) == Pending(s.process);
    BatchIsStored(s);
  }

  /** Dropping the batch leaves the rest of the end of the log pending. */
  lemma FlushEndInv(s: System)
    requires Inv(s) && Enabled(s, FlushEnd)
    ensures Inv(Next(s, FlushEnd))
  {
    assert Pending(Next(s, FlushEnd).process) == Pending(s.process)[|s.process.batch|..];
    if !s.process.stalled {
      BatchIsStored(s);
    }
  }

  /** When a batch is written and nothing has stalled, every record up to the
      last of the batch is stored: the checkpoint jumps over no gap. */
  lemma BatchIsStored(s: System)
    requires Inv(s) && s.process.Running?
    requires s.process.stage.Written? || (s.process.stage.Settled? && !s.process.stalled)
    ensures var last := LastSeq(s.process.batch);
            && last == |s.history| - |Pending(s.process)| + |s.process.batch|
            && 1 <= last <= |s.history|
            && (s.process.stage.Written? ==> s.process.checkpoint < last)
            && (!s.process.stalled ==> StoredBelow(s.history, s.store, last))
  {
    var p, h := s.process, s.history;
    BatchIsLogged(s);
    if !p.stalled {
      var lo := |h| - |Pending(p)|;
      forall i | 0 <= i < LastSeq(p.batch) ensures Stored(s.store, h[i]) {
        assert i >= lo ==> Pending(p)[i - lo] == p.batch[i - lo];
      }
    }
  }

  lemma CrashInv(s: System, torn: Option<LogEvent>, renamed: bool)
    requires Inv(s) && Enabled(s, Crash(torn, renamed))
    ensures Inv(Next(s, Crash(torn, renamed)))
  {
    var q := s;
    if renamed && s.process.Running? {
      BatchIsStored(s);
      q := s.(persisted := Checkpointed(s.persisted, s.process.checkpoint, LastSeq(s.process.batch)), process := Down);
    } else if renamed {
      q := s.(persisted := |s.history|, process := Down);
    }
    if torn.Some? {
      LoggedMore(q, torn.value);
    }
  }

  lemma RecoverFlushInv(s: System, count: nat, ok: bool)
    requires Inv(s) && Enabled(s, RecoverFlush(count, ok))
    ensures Inv(Next(s, RecoverFlush(count, ok)))
  {
    if ok {
      var pos := s.process.pos;
      var batch := s.history[pos..pos + count];
      LoggedUpsert(s.history, s.store, batch);
      var store' := Upsert(s.store, batch);
      forall i | 0 <= i < pos + count ensures Stored(store', s.history[i]) {
        assert i >= pos ==> batch[i - pos] == s.history[i];
      }
    }
  }

  /** Every atomic step keeps the invariant, whatever fails and wherever the
      process dies. */
  lemma NextInv(s: System, step: Step)
    requires Inv(s) && Enabled(s, step)
    ensures Inv(Next(s, step))
  {
    match step
    case EnqueueAppend(e) => AppendInv(s, e);
    case EnqueueSend => MoveInv(s, step);
    case Receive => MoveInv(s, step);
    case FlushStore(ok) => FlushStoreInv(s, ok);
    case FlushCheckpoint(ok) => FlushCheckpointInv(s, ok);
    case FlushEnd => FlushEndInv(s);
    case Crash(torn, renamed) => CrashInv(s, torn, renamed);
    case RecoverFlush(count, ok) => RecoverFlushInv(s, count, ok);
    case EnqueueRefused(_) =>
    case FlushSync(_) => assert Pending(Next(s, step).process) == Pending(s.process);
    case Stop => assert Pending(Next(s, step).process) == Pending(s.process);
    case Open =>
    case RecoverFinish(ok) =>
      assert ok ==> Pending(Next(s, step).process) == [];
  }

  /** A finite sequence of steps from one state to another. */
  ghost predicate Path(s: System, steps: seq<Step>, s': System)
    decreases |steps|
  {
    if steps == [] then s == s'
    else Enabled(s, steps[0]) && Path(Next(s, steps[0]), steps[1..], s')
  }

  lemma {:induction false} PathInv(s: System, steps: seq<Step>, s': System)
    requires Inv(s) && Path(s, steps, s')
    ensures Inv(s')
    decreases |steps|
  {
    if steps != [] {
      NextInv(s, steps[0]);
      PathInv(Next(s, steps[0]), steps[1..], s');
    }
  }

  lemma {:induction false} PathSnoc(s: System, steps: seq<Step>, s': System, step: Step)
    requires Path(s, steps, s') && Enabled(s', step)
    ensures Path(s, steps + [step], Next(s', step))
    decreases |steps|
  {
    if steps == [] {
      assert [step][1..] == [];
    } else {
      PathSnoc(Next(s, steps[0]), steps[1..], s', step);
      assert (steps + [step])[1..] == steps[1..] + [step];
    }
  }

  lemma {:induction false} PathConcat(s: System, xs: seq<Step>, s': System, ys: seq<Step>, s'': System)
    requires Path(s, xs, s') && Path(s', ys, s'')
    ensures Path(s, xs + ys, s'')
    decreases |xs|
  {
    if xs == [] {
      assert xs + ys == ys;
    } else {
      PathConcat(Next(s, xs[0]), xs[1..], s', ys, s'');
      assert (xs + ys)[1..] == xs[1..] + ys;
    }
  }

  // ----- which IDs are in use ----------------------------------------------------

  ghost function Known(s: System): set<string> {
    s.refused + set e | e in s.history :: e.id
  }

  function IdsOf(step: Step): set<string> {
    match step
    case EnqueueRefused(e) => {e.id}
    case EnqueueAppend(e) => {e.id}
    case Crash(Some(e), _) => {e.id}
    case _ => {}
  }

  function IdsIn(steps: seq<Step>): set<string> {
    if steps == [] then {} else IdsOf(steps[0]) + IdsIn(steps[1..])
  }

  function Logged(step: Step): nat {
    if step.EnqueueAppend? || (step.Crash? && step.torn.Some?) then 1 else 0
  }

  function LoggedIn(steps: seq<Step>): nat {
    if steps == [] then 0 else Logged(steps[0]) + LoggedIn(steps[1..])
  }

  lemma UnusedIs(s: System, e: LogEvent)
    ensures Unused(s, e) <==> e.id !in Known(s)
  {
    if e.id in Known(s) && e.id !in s.refused {
      var x :| x in s.history && x.id == e.id;
      var i :| 0 <= i < |s.history| && s.history[i] == x;
    }
  }

  lemma KnownNext(s: System, step: Step)
    requires Enabled(s, step)
    ensures Known(Next(s, step)) == Known(s) + IdsOf(step)
    ensures |Next(s, step).history| == |s.history| + Logged(step)
  {
    var s' := Next(s, step);
    if Logged(step) == 1 {
      var e := s'.history[|s.history|];
      assert s'.history == s.history + [e];
      assert Known(s') == Known(s) + {e.id};
    }
  }

  /** Only the events of the steps come to use IDs, and each step logs at most its
      own. */
  lemma {:induction false} KnownAlong(s: System, steps: seq<Step>, s': System)
    requires Path(s, steps, s')
    ensures Known(s') == Known(s) + IdsIn(steps)
    ensures |s'.history| == |s.history| + LoggedIn(steps)
    decreases |steps|
  {
    if steps != [] {
      KnownNext(s, steps[0]);
      KnownAlong(Next(s, steps[0]), steps[1..], s');
    }
  }

  // ----- what is stored stays stored -----------------------------------------------

  lemma StaysStored(s: System, step: Step, e: LogEvent)
    requires Inv(s) && Enabled(s, step) && e in s.history && Stored(s.store, e)
    ensures e in Next(s, step).history && Stored(Next(s, step).store, e)
  {
    if step.FlushStore? && step.ok {
      BatchIsLogged(s);
      LoggedUpsert(s.history, s.store, EventsOf(s.process.batch));
    } else if step.RecoverFlush? && step.ok {
      LoggedUpsert(s.history, s.store, s.history[s.process.pos..s.process.pos + step.count]);
    }
  }

  lemma {:induction false} StaysStoredAlong(s: System, steps: seq<Step>, s': System, e: LogEvent)
    requires Inv(s) && Path(s, steps, s') && e in s.history && Stored(s.store, e)
    ensures e in s'.history && Stored(s'.store, e)
    decreases |steps|
  {
    if steps != [] {
      StaysStored(s, steps[0], e);
      NextInv(s, steps[0]);
      StaysStoredAlong(Next(s, steps[0]), steps[1..], s', e);
    }
  }

  // ----- whole runs ------------------------------------------------------------------

  /** Any interleaving of steps from an empty disk. */
  ghost predicate IsRun(run: seq<System>, steps: seq<Step>) {
    && |run| == |steps| + 1
    && run[0] == Initial()
    && forall i :: 0 <= i < |steps| ==> Enabled(run[i], steps[i]) && run[i + 1] == Next(run[i], steps[i])
  }

  lemma {:induction false} RunInv(run: seq<System>, steps: seq<Step>, n: nat)
    requires IsRun(run, steps) && n < |run|
    ensures Inv(run[n])
  {
    if n > 0 {
      RunInv(run, steps, n - 1);
      NextInv(run[n - 1], steps[n - 1]);
    }
  }

  /** Crash safety. At every instant of every run, an event whose Enqueue
      returned true is in the store or is a log record above the persisted
      checkpoint; every record at or below the persisted checkpoint is stored;
      nothing refused is stored or logged. */
  lemma CrashSafety(run: seq<System>, steps: seq<Step>, n: nat)
    requires IsRun(run, steps) && n < |run|
    ensures var s := run[n];
      && (forall q :: q in s.accepted ==>
            1 <= q <= |s.history| && (Stored(s.store, s.history[q - 1]) || q > s.persisted))
      && s.persisted <= |s.history|
      && (forall i :: 0 <= i < s.persisted ==> Stored(s.store, s.history[i]))
      && (forall id :: id in s.refused ==>
            id !in s.store && forall i :: 0 <= i < |s.history| ==> s.history[i].id != id)
  {
    RunInv(run, steps, n);
  }

  /** After a successful recovery the store holds exactly the logged events: all
      that were accepted, none that was refused, and the checkpoint says so. */
  lemma RecoveryIsComplete(run: seq<System>, steps: seq<Step>, n: nat)
    requires IsRun(run, steps) && n < |steps| && steps[n] == RecoverFinish(true)
    ensures var s := run[n + 1];
      && s.persisted == |s.history|
      && (forall q :: q in s.accepted ==> 1 <= q <= |s.history| && Stored(s.store, s.history[q - 1]))
      && (forall i :: 0 <= i < |s.history| ==> Stored(s.store, s.history[i]))
      && (forall id :: id in s.store ==> s.store[id] in s.history)
      && (forall id :: id in s.refused ==> id !in s.store)
  {
    RunInv(run, steps, n + 1);
    CrashSafety(run, steps, n + 1);
  }

  /** A stopped process that has drained its queue and never stalled leaves
      nothing to recover. */
  lemma DrainedIsStored(run: seq<System>, steps: seq<Step>, n: nat)
    requires IsRun(run, steps) && n < |run|
    requires run[n].process.Running? && !run[n].process.stalled && Pending(run[n].process) == []
    ensures forall i :: 0 <= i < |run[n].history| ==> Stored(run[n].store, run[n].history[i])
  {
    RunInv(run, steps, n);
  }
}
