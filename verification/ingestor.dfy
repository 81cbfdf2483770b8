/** The ingestor as written: its queue, its batch writer and its recovery over
    the write-ahead log and the database. Every method follows steps of Ingest, so
    what holds of every run there holds of any interleaving of calls here. */
module Ingestor {
  import opened Bytes
  import opened Model
  import opened WalCodec
  import opened Wal
  import opened Ingest
  import Sqlite

  /** JSON serialization, as far as the log relies on it. */
  datatype Json = Json(marshal: LogEvent -> Option<seq<byte>>, unmarshal: seq<byte> -> Option<LogEvent>) {
    ghost predicate Lawful() {
      forall e :: marshal(e).Some? ==>
        |marshal(e).value| <= MAX_RECORD_BYTES && unmarshal(marshal(e).value) == Some(e)
    }
  }

  ghost predicate Decodable(json: Json, h: History) {
    forall i :: 0 <= i < |h| ==> json.unmarshal(h[i]).Some?
  }

  ghost function Decode(json: Json, h: History): seq<LogEvent>
    requires Decodable(json, h)
  {
    seq(|h|, i requires 0 <= i < |h| => json.unmarshal(h[i]).value)
  }

  /** How the steps of one flush turn out. */
  datatype Outcome = Outcome(syncOk: bool, store: Sqlite.Fault, checkpoint: CheckpointFault, stuck: set<nat>) {
    predicate Clean() {
      syncOk && store.None? && checkpoint.NoCheckpointFault?
    }
  }

  /** Where the process is. */
  datatype Place =
    | Dead
    | Replaying(pos: nat)
    | Serving(inFlight: Option<Queued>, stage: Stage)

  const IDLE: Place := Serving(None, Collecting)

  /** What may happen next, in any order: a producer arrives, or gets as far as the
      log and sends later; the ingestor is stopped; the batch writer takes a step;
      the process dies. */
  datatype Action =
    | Arrives(e: LogEvent, fault: AppendFault)
    | Appends(e: LogEvent, fault: AppendFault)
    | Sends
    | Stops
    | Receives
    | Syncs(ok: bool)
    | Stores(store: Sqlite.Fault)
    | Marks(checkpoint: CheckpointFault, stuck: set<nat>)
    | Ends
    | Dies
  {
    function Ids(): set<string> {
      if Arrives? || Appends? then {e.id} else {}
    }
  }

  /** The events that are still to come have new IDs. */
  ghost predicate IdsLeft(known: set<string>, schedule: seq<Action>, i: nat) {
    && (forall j :: i <= j < |schedule| ==> schedule[j].Ids() !! known)
    && (forall j, k :: i <= j < k < |schedule| ==> schedule[j].Ids() !! schedule[k].Ids())
  }

  lemma IdsLater(known: set<string>, known': set<string>, schedule: seq<Action>, i: nat)
    requires i < |schedule| && IdsLeft(known, schedule, i) && known' <= known + schedule[i].Ids()
    ensures IdsLeft(known', schedule, i + 1)
  {
  }

  class Ingestor {
    const wal: WAL
    const store: Sqlite.DB
    const json: Json
    const capacity: nat
    const batchSize: nat

    var ch: seq<Queued>
    var closed: bool
    var checkpointStalled: bool
    var batch: seq<Queued>  // the batch writer's variables
    var maxSeq: nat

    var at: Place
    ghost var accepted: set<nat>
    ghost var refused: set<string>

    ghost predicate Ready()
      reads this, wal.dir
    {
      json.Lawful() && Decodable(json, wal.dir.history)
    }

    /** The state of Ingest this object, its log and its store are in. */
    ghost function Abs(): System
      requires Ready()
      reads this, wal, wal.dir, store
    {
      System(Decode(json, wal.dir.history), wal.dir.persisted, store.events, Proc(), accepted, refused)
    }

    ghost function Proc(): Process
      reads this, wal
    {
      match at
      case Dead => Down
      case Replaying(pos) => Recovering(pos)
      case Serving(inFlight, stage) =>
        Running(inFlight, ch, batch, stage, checkpointStalled, closed, wal.checkpoint)
    }

    /** A dead process leaves a directory that can be opened again. */
    ghost predicate LogValid()
      reads this, wal, wal.dir
    {
      match at
      case Dead => wal.dir.Inv(wal.f)
      case _ => wal.Valid()
    }

    ghost predicate Valid()
      reads this, wal, wal.dir, store
    {
      match at
      case Replaying(_) => Sound() && LogValid() && Fresh()
      case _ => Sound() && LogValid()
    }

    ghost predicate Sound()
      reads this, wal, wal.dir, store
    {
      && Ready()
      && Inv(Abs())
      && store.Valid()
      && maxSeq == LastSeq(batch)
      && batchSize > 0
    }

    /** Until recovery is over nothing has been queued. */
    ghost predicate Fresh()
      reads this, wal, wal.dir
    {
      ch == [] && batch == [] && !checkpointStalled && !closed && wal.checkpoint == wal.dir.persisted
    }

    /** A process starting on what an earlier one left on disk. */
    constructor (wal: WAL, store: Sqlite.DB, json: Json, capacity: nat, batchSize: nat,
                 ghost told: set<nat>, ghost denied: set<string>)
      requires wal.Valid() && wal.checkpoint == wal.dir.persisted && batchSize > 0
      requires json.Lawful() && Decodable(json, wal.dir.history) && store.Valid()
      requires Inv(System(Decode(json, wal.dir.history), wal.dir.persisted, store.events, Down, told, denied))
      ensures this.wal == wal && this.store == store && this.json == json && this.capacity == capacity
      ensures Valid() && at == Replaying(wal.checkpoint)
      ensures Path(System(Decode(json, wal.dir.history), wal.dir.persisted, store.events, Down, told, denied), [Step.Open], Abs())
    {
      this.wal, this.store, this.json, this.capacity, this.batchSize := wal, store, json, capacity, batchSize;
      ch, closed, checkpointStalled, batch, maxSeq := [], false, false, [], 0;
      at, accepted, refused := Replaying(wal.dir.persisted), told, denied;
    }

    // ----- producers ----------------------------------------------------------

    /** The lock of the producers is free. What the batch writer is doing does not
        matter: it does not take the lock. */
    ghost predicate Unlocked()
      reads this
    {
      at.Serving? && at.inFlight.None?
    }

    /** Enqueue logs an event before queueing it. It answers true exactly when
        the event was logged and queued; a refused event is not in the log. */
    method Enqueue(e: LogEvent, fault: AppendFault) returns (ok: bool, ghost steps: seq<Step>)
      requires Valid() && Unlocked() && Unused(Abs(), e) && wal.nextSeq + 1 < TWO_64
      modifies this, wal, wal.dir
      ensures Valid() && Path(old(Abs()), steps, Abs())
      ensures Taken(old(Room(e)), e, fault, [EnqueueAppend(e), EnqueueSend], steps)
      ensures ok <==> steps == [EnqueueAppend(e), EnqueueSend]
    {
      ghost var s := Abs();
      var res, step := Admit(e, fault);
      ok, steps := res.Appended?, [step];
      if ok {
        Send(Queued(e, res.seqNo));
        PathTwo(s, step, EnqueueSend, Abs());
        steps := [step, EnqueueSend];
      } else {
        PathOne(s, step, Abs());
      }
    }

    predicate Room(e: LogEvent)
      reads this
    {
      !closed && |ch| < capacity && json.marshal(e).Some?
    }

    /** As far as the log: the event is logged if there is room in the queue, and
        refused otherwise or if the log refuses it. */
    method Admit(e: LogEvent, fault: AppendFault) returns (res: AppendResult, ghost step: Step)
      requires Valid() && Unlocked() && Unused(Abs(), e) && wal.nextSeq + 1 < TWO_64
      modifies this`at, this`refused, wal, wal.dir
      ensures Valid() && Enabled(old(Abs()), step) && Abs() == Next(old(Abs()), step)
      ensures Taken(old(Room(e)), e, fault, [EnqueueAppend(e)], [step])
      ensures res.Appended? <==> step == EnqueueAppend(e)
      ensures res.Appended? ==> at == old(at).(inFlight := Some(Queued(e, res.seqNo)))
    {
      step := EnqueueRefused(e);
      if !Room(e) {
        Refuse(e);
        return AppendResult.Refused, step;
      }
      ghost var more;
      res, more := Log(e, fault);
      if res.Refused? {
        Refuse(e);
      } else {
        step := more;
      }
    }

    method Refuse(e: LogEvent)
      requires Valid() && Unlocked() && Unused(Abs(), e)
      modifies this`refused
      ensures Valid() && Abs() == Next(old(Abs()), EnqueueRefused(e))
    {
      NextInv(Abs(), EnqueueRefused(e));
      refused := refused + {e.id};
    }

    /** The append to the log, under the producers' lock. */
    method Log(e: LogEvent, fault: AppendFault) returns (res: AppendResult, ghost step: Step)
      requires Valid() && Unlocked() && !closed && Unused(Abs(), e) && wal.nextSeq + 1 < TWO_64
      requires json.marshal(e).Some?
      modifies this`at, wal, wal.dir
      ensures Valid()
      ensures res.Appended? ==> step == EnqueueAppend(e) && at == old(at).(inFlight := Some(Queued(e, res.seqNo)))
      ensures res.Refused? ==> at == old(at) && Abs() == old(Abs())
      ensures res.Crashed? ==> at.Dead? && step in {Step.Crash(None, false), Step.Crash(Some(e), false)}
      ensures !res.Refused? ==> Enabled(old(Abs()), step) && Abs() == Next(old(Abs()), step)
      ensures (fault.NoFault? ==> res.Appended?) && (fault.WriteFault? ==> res.Refused?)
      ensures res.Crashed? <==> fault.Kills()
    {
      if fault.Kills() {
        res := AppendResult.Crashed;
        step := LogAndDie(e, fault);
      } else {
        step := EnqueueAppend(e);
        res := LogOrRefuse(e, fault);
      }
    }

    method LogAndDie(e: LogEvent, fault: AppendFault) returns (ghost step: Step)
      requires Valid() && Unlocked() && !closed && Unused(Abs(), e) && wal.nextSeq + 1 < TWO_64
      requires json.marshal(e).Some? && fault.Kills()
      modifies this`at, wal, wal.dir
      ensures Valid() && at.Dead? && step in {Step.Crash(None, false), Step.Crash(Some(e), false)}
      ensures Enabled(old(Abs()), step) && Abs() == Next(old(Abs()), step)
    {
      ghost var s := Abs();
      var payload := json.marshal(e).value;
      DecodeMore(json, wal.dir.history, payload, e);
      var _ := wal.Append(payload, fault);
      at := Dead;
      step := Step.Crash(if wal.dir.history == old(wal.dir.history) then None else Some(e), false);
      NextInv(s, step);
      assert Abs() == Next(s, step);
    }

    method LogOrRefuse(e: LogEvent, fault: AppendFault) returns (res: AppendResult)
      requires Valid() && Unlocked() && !closed && Unused(Abs(), e) && wal.nextSeq + 1 < TWO_64
      requires json.marshal(e).Some? && !fault.Kills()
      modifies this`at, wal, wal.dir
      ensures Valid() && !res.Crashed?
      ensures (fault.NoFault? ==> res.Appended?) && (fault.WriteFault? ==> res.Refused?)
      ensures if res.Refused? then at == old(at) && Abs() == old(Abs())
              else at == old(at).(inFlight := Some(Queued(e, res.seqNo)))
                   && Abs() == Next(old(Abs()), EnqueueAppend(e))
    {
      ghost var s := Abs();
      res := AppendEvent(e, fault);
      if res.Appended? {
        at := Serving(Some(Queued(e, res.seqNo)), at.stage);
        LoggedNext(s, e, Abs());
      }
    }

    /** The event is appended to the log or it is not. */
    method AppendEvent(e: LogEvent, fault: AppendFault) returns (res: AppendResult)
      requires Ready() && wal.Valid() && wal.nextSeq + 1 < TWO_64
      requires json.marshal(e).Some? && !fault.Kills()
      modifies wal, wal.dir
      ensures Ready() && wal.Valid() && !res.Crashed?
      ensures (fault.NoFault? ==> res.Appended?) && (fault.WriteFault? ==> res.Refused?)
      ensures wal.dir.persisted == old(wal.dir.persisted) && wal.checkpoint == old(wal.checkpoint)
      ensures res.Appended? ==> res.seqNo == |wal.dir.history|
      ensures Decode(json, wal.dir.history)
              == old(Decode(json, wal.dir.history)) + if res.Appended? then [e] else []
    {
      var payload := json.marshal(e).value;
      DecodeMore(json, wal.dir.history, payload, e);
      res := wal.Append(payload, fault);
    }

    /** The send that the check of the capacity left room for. */
    method Send(q: Queued)
      requires Valid() && at.Serving? && at.inFlight == Some(q)
      modifies this`ch, this`at, this`accepted
      ensures Valid() && Abs() == Next(old(Abs()), EnqueueSend) && at == old(at).(inFlight := None)
    {
      NextInv(Abs(), EnqueueSend);
      ch, at, accepted := ch + [q], at.(inFlight := None), accepted + {q.seqNo};
    }

    method Stop()
      requires Valid() && Unlocked()
      modifies this`closed
      ensures Valid() && Abs() == Next(old(Abs()), Step.Stop)
    {
      NextInv(Abs(), Step.Stop);
      closed := true;
    }

    /** The process dies, wherever it is. */
    method Die() returns (ghost step: Step)
      requires Valid() && !at.Dead?
      modifies this`at
      ensures Valid() && at.Dead? && step == Step.Crash(None, false)
      ensures Enabled(old(Abs()), step) && Abs() == Next(old(Abs()), step)
    {
      step := Step.Crash(None, false);
      NextInv(Abs(), step);
      at := Dead;
    }

    // ----- the batch writer -------------------------------------------------------

    /** The batch writer takes one event off the queue. */
    method Receive()
      requires Valid() && at.Serving? && at.stage.Collecting? && ch != []
      modifies this`ch, this`batch, this`maxSeq
      ensures Valid() && Abs() == Next(old(Abs()), Step.Receive)
    {
      NextInv(Abs(), Step.Receive);
      ReceivedSeq(Abs());
      var q := ch[0];
      batch, ch := batch + [q], ch[1..];
      if q.seqNo > maxSeq {
        maxSeq := q.seqNo;
      }
    }

    /** What run does once the queue is closed: take everything off it, flush
        whenever a batch is full, and flush the remainder. Unless something
        failed, every event ever logged is then stored. */
    method Drain(outcome: nat -> Outcome) returns (alive: bool, ghost steps: seq<Step>)
      requires Valid() && at == IDLE && closed
      modifies this, wal, wal.dir, store
      ensures Valid() && Path(old(Abs()), steps, Abs()) && alive == !at.Dead?
      ensures alive ==> at == IDLE && ch == [] && batch == []
      ensures alive && !checkpointStalled ==> StoredBelow(Abs().history, store.events, |Abs().history|)
      ensures (forall n :: !outcome(n).checkpoint.Kills()) ==> alive
      ensures (forall n :: outcome(n).Clean()) && !old(checkpointStalled) ==>
        alive && !checkpointStalled
        && (old(ch) != [] || old(batch) != [] ==> wal.dir.persisted == |wal.dir.history|)
    {
      ghost var s := Abs();
      alive, steps := true, [];
      var flushes := 0;
      while alive && (ch != [] || batch != [])
        invariant Valid() && Path(s, steps, Abs()) && alive == !at.Dead? && (alive ==> at == IDLE)
        invariant (forall n :: !outcome(n).checkpoint.Kills()) ==> alive
        invariant (forall n :: outcome(n).Clean()) && !old(checkpointStalled) ==>
          alive && !checkpointStalled
          && (ch == [] && batch == [] && (old(ch) != [] || old(batch) != []) ==> wal.dir.persisted == |wal.dir.history|)
        decreases alive, |ch|, |batch|
      {
        ghost var before, more := Abs(), [];
        var full;
        alive, full, more := DrainStep(outcome(flushes));
        PathConcat(s, steps, before, more, Abs());
        flushes, steps := flushes + (if full then 1 else 0), steps + more;
      }
    }

    /** Once around that loop: an event more in the batch, or a flush. */
    method DrainStep(o: Outcome) returns (alive: bool, flushed: bool, ghost steps: seq<Step>)
      requires Valid() && at == IDLE && (ch != [] || batch != [])
      modifies this, wal, wal.dir, store
      ensures Valid() && Path(old(Abs()), steps, Abs()) && alive == !at.Dead?
      ensures alive ==> at == IDLE
      ensures |ch| < |old(ch)| || (ch == old(ch) && (alive ==> |batch| < |old(batch)|))
      ensures !o.checkpoint.Kills() ==> alive
      ensures o.Clean() && !old(checkpointStalled) ==>
        alive && !checkpointStalled && (ch == [] && batch == [] ==> wal.dir.persisted == |wal.dir.history|)
    {
      flushed := ch == [] || |batch| >= batchSize;
      if flushed {
        LastOfAll(Abs());
        alive, steps := Flush(o);
      } else {
        alive, steps := true, [Step.Receive];
        PathOne(Abs(), Step.Receive, Next(Abs(), Step.Receive));
        Receive();
      }
    }

    /** One flush of the batch writer: write the batch, then start a new one. */
    method Flush(o: Outcome) returns (alive: bool, ghost steps: seq<Step>)
      requires Valid() && at == IDLE && batch != []
      modifies this, wal, wal.dir, store
      ensures Valid() && ch == old(ch) && closed == old(closed) && alive == !at.Dead?
      ensures alive ==> at == IDLE && batch == []
      ensures Path(old(Abs()), steps, Abs())
      ensures store.events == if o.store.None? then Upsert(old(store.events), EventsOf(old(batch))) else old(store.events)
      ensures o.store.Some? || !o.syncOk || old(checkpointStalled) ==> alive && checkpointStalled && unchanged(wal.dir)
      ensures !o.checkpoint.Kills() ==> alive
      ensures o.Clean() && !old(checkpointStalled) ==>
        alive && !checkpointStalled && wal.dir.persisted == LastSeq(old(batch)) && wal.dir.history == old(wal.dir.history)
    {
      ghost var s := Abs();
      alive, steps := WriteBatch(o);
      if alive {
        PathSnoc(s, steps, Abs(), FlushEnd);
        steps := steps + [FlushEnd];
        EndFlush();
      }
    }

    /** writeBatch: sync the log, write the store, advance the checkpoint. The
        checkpoint moves only when nothing has ever failed. */
    method WriteBatch(o: Outcome) returns (alive: bool, ghost steps: seq<Step>)
      requires Valid() && at == IDLE && batch != []
      modifies this`at, this`checkpointStalled, wal, wal.dir, store
      ensures Valid() && at == if alive then Serving(None, Settled) else Dead
      ensures Path(old(Abs()), steps, Abs())
      ensures store.events == if o.store.None? then Upsert(old(store.events), EventsOf(batch)) else old(store.events)
      ensures o.store.Some? || !o.syncOk || old(checkpointStalled) ==> alive && checkpointStalled && unchanged(wal.dir)
      ensures !o.checkpoint.Kills() ==> alive
      ensures o.Clean() && !old(checkpointStalled) ==>
        alive && !checkpointStalled && wal.dir.persisted == LastSeq(old(batch)) && wal.dir.history == old(wal.dir.history)
    {
      ghost var s := Abs();
      SyncAndStore(o);
      ghost var s2 := Abs();
      alive, steps := true, [FlushSync(o.syncOk), FlushStore(o.store.None?)];
      if o.store.None? {
        ghost var last;
        alive, last := AdvanceCheckpoint(o.checkpoint, o.stuck);
        PathSnoc(s, steps, s2, last);
        steps := steps + [last];
      }
    }

    method SyncAndStore(o: Outcome)
      requires Valid() && at == IDLE && batch != []
      modifies this`at, this`checkpointStalled, store
      ensures Valid() && at == Serving(None, if o.store.None? then Written else Settled)
      ensures Path(old(Abs()), [FlushSync(o.syncOk), FlushStore(o.store.None?)], Abs())
      ensures store.events == if o.store.None? then Upsert(old(store.events), EventsOf(batch)) else old(store.events)
      ensures checkpointStalled == (old(checkpointStalled) || !o.syncOk || o.store.Some?)
    {
      ghost var s := Abs();
      SyncLog(o.syncOk);
      WriteStore(o.store);
      PathTwo(s, FlushSync(o.syncOk), FlushStore(o.store.None?), Abs());
    }

    method SyncLog(ok: bool)
      requires Valid() && at.Serving? && at.stage.Collecting? && batch != []
      modifies this`at, this`checkpointStalled
      ensures Valid() && Abs() == Next(old(Abs()), FlushSync(ok)) && at == old(at).(stage := Synced)
    {
      NextInv(Abs(), FlushSync(ok));
      at, checkpointStalled := at.(stage := Synced), checkpointStalled || !ok;
    }

    method WriteStore(fault: Sqlite.Fault)
      requires Valid() && at.Serving? && at.stage.Synced?
      modifies this`at, this`checkpointStalled, store
      ensures Valid() && Abs() == Next(old(Abs()), FlushStore(fault.None?))
      ensures at == old(at).(stage := if fault.None? then Written else Settled)
      ensures store.events == if fault.None? then Upsert(old(store.events), EventsOf(batch)) else old(store.events)
    {
      ghost var s := Abs();
      var ok := store.Append(EventsOf(batch), fault);
      at, checkpointStalled := at.(stage := if ok then Written else Settled), checkpointStalled || !ok;
      StoredNext(s, ok, Abs());
    }

    method AdvanceCheckpoint(fault: CheckpointFault, stuck: set<nat>) returns (alive: bool, ghost last: Step)
      requires Valid() && at.Serving? && at.stage.Written?
      modifies this`at, this`checkpointStalled, wal, wal.dir
      ensures Valid() && at == if alive then old(at).(stage := Settled) else Dead
      ensures Enabled(old(Abs()), last) && Abs() == Next(old(Abs()), last)
      ensures MarksAs(old(checkpointStalled), fault, last) && alive == !last.Crash?
      ensures old(checkpointStalled) ==> checkpointStalled && unchanged(wal.dir)
      ensures !old(checkpointStalled) ==>
        && wal.dir.history == old(wal.dir.history)
        && wal.dir.persisted == (if fault.Renames() then maxSeq else old(wal.dir.persisted))
        && (alive ==> checkpointStalled == fault.CheckpointWriteFault?)
    {
      if checkpointStalled {
        alive, last := true, FlushCheckpoint(true);
        SkipCheckpoint();
      } else {
        ghost var s := Abs();
        BatchIsStored(s);
        var res := Mark(fault, stuck);
        ghost var s';
        last, s' := CheckpointStep(s, res, wal.dir.persisted);
        alive := !res.Died?;
        assert Abs() == s';
      }
    }

    /** A stalled checkpoint never moves again. */
    method SkipCheckpoint()
      requires Valid() && at.Serving? && at.stage.Written? && checkpointStalled
      modifies this`at
      ensures Valid() && at == old(at).(stage := Settled) && Abs() == Next(old(Abs()), FlushCheckpoint(true))
    {
      NextInv(Abs(), FlushCheckpoint(true));
      at := at.(stage := Settled);
    }

    method Mark(fault: CheckpointFault, stuck: set<nat>) returns (res: CheckpointResult)
      requires LogValid() && at.Serving? && !checkpointStalled && wal.checkpoint < maxSeq <= |wal.dir.history|
      modifies this`at, this`checkpointStalled, wal, wal.dir
      ensures LogValid() && wal.dir.history == old(wal.dir.history)
      ensures at == (if res.Died? then Dead else old(at).(stage := Settled)) && checkpointStalled == res.NotWritten?
      ensures unchanged(`ch, `closed, `batch, `accepted, `refused, store)
      ensures wal.dir.persisted == if fault.Renames() then maxSeq else old(wal.dir.persisted)
      ensures !res.Died? ==> wal.checkpoint == maxSeq
      ensures (res.NotWritten? <==> fault.CheckpointWriteFault?) && (res.Died? ==> fault.Kills())
      ensures res.Done? ==> fault.Renames()
    {
      res := wal.SetCheckpoint(maxSeq, fault, stuck);
      at, checkpointStalled := if res.Died? then Dead else at.(stage := Settled), res.NotWritten?;
    }

    /** The end of flush, in the batch writer's loop. */
    method EndFlush()
      requires Valid() && at.Serving? && at.stage.Settled?
      modifies this`at, this`batch, this`maxSeq
      ensures Valid() && at == old(at).(stage := Collecting) && batch == [] && Abs() == Next(old(Abs()), FlushEnd)
    {
      ghost var s' := Next(Abs(), FlushEnd);
      NextInv(Abs(), FlushEnd);
      at, batch, maxSeq := Serving(at.inFlight, Collecting), [], 0;
      assert Proc() == s'.process;
      assert Abs() == s';
    }

    // ----- any interleaving --------------------------------------------------------

    /** What an action comes to: its step or steps if it is possible, and nothing if
        it is not. */
    ghost predicate Responds(s: System, a: Action, steps: seq<Step>) {
      var p := s.process;
      match a
      case Arrives(e, fault) =>
        if Free(p) then Taken(RoomIn(p, e), e, fault, [EnqueueAppend(e), EnqueueSend], steps) else steps == []
      case Appends(e, fault) =>
        if Free(p) then Taken(RoomIn(p, e), e, fault, [EnqueueAppend(e)], steps) else steps == []
      case Sends => steps == if p.Running? && p.inFlight.Some? then [EnqueueSend] else []
      case Stops => steps == if Free(p) then [Step.Stop] else []
      case Dies => steps == if !p.Down? then [Step.Crash(None, false)] else []
      case Receives =>
        steps == if In(p, Collecting) && p.queue != [] && |p.batch| < batchSize then [Step.Receive] else []
      case Syncs(ok) => steps == if In(p, Collecting) && p.batch != [] then [FlushSync(ok)] else []
      case Stores(fault) => steps == if In(p, Synced) then [FlushStore(fault.None?)] else []
      case Marks(fault, _) =>
        if In(p, Written) then |steps| == 1 && MarksAs(p.stalled, fault, steps[0]) else steps == []
      case Ends => steps == if In(p, Settled) then [FlushEnd] else []
    }

    predicate RoomIn(p: Process, e: LogEvent)
      requires p.Running?
    {
      !p.closed && |p.queue| < capacity && json.marshal(e).Some?
    }

    method PerformProducer(a: Action) returns (ghost steps: seq<Step>)
      requires Valid() && (a.Arrives? || a.Appends?) && |wal.dir.history| + 2 < TWO_64
      requires Unused(Abs(), a.e)
      modifies this, wal, wal.dir
      ensures Valid() && Path(old(Abs()), steps, Abs()) && Responds(old(Abs()), a, steps)
    {
      ghost var s := Abs();
      steps := [];
      if !at.Serving? || at.inFlight.Some? {
        return;
      }
      if a.Arrives? {
        var _, more := Enqueue(a.e, a.fault);
        steps := more;
      } else {
        var _, step := Admit(a.e, a.fault);
        steps := [step];
        PathOne(s, step, Abs());
      }
    }

    /** What else can happen outside the batch writer: a send, Stop, a crash. */
    method PerformOutside(a: Action) returns (ghost steps: seq<Step>)
      requires Valid() && (a.Sends? || a.Stops? || a.Dies?)
      modifies this`ch, this`at, this`accepted, this`closed
      ensures Valid() && Path(old(Abs()), steps, Abs()) && Responds(old(Abs()), a, steps)
    {
      ghost var s, step := Abs(), EnqueueSend;
      steps := [];
      if at.Serving? && at.inFlight.Some? && a.Sends? {
        Send(at.inFlight.value);
      } else if at.Serving? && at.inFlight.None? && a.Stops? {
        Stop();
        step := Step.Stop;
      } else if !at.Dead? && a.Dies? {
        step := Die();
      } else {
        return;
      }
      steps := [step];
      PathOne(s, step, Abs());
    }

    /** The batch writer fills a batch. */
    method PerformCollecting(a: Action) returns (ghost steps: seq<Step>)
      requires Valid() && (a.Receives? || a.Syncs?)
      modifies this`at, this`checkpointStalled, this`ch, this`batch, this`maxSeq
      ensures Valid() && Path(old(Abs()), steps, Abs()) && Responds(old(Abs()), a, steps)
    {
      ghost var s, step := Abs(), Step.Receive;
      steps := [];
      if !at.Serving? || !at.stage.Collecting? {
        return;
      }
      if ch != [] && |batch| < batchSize && a.Receives? {
        Receive();
      } else if batch != [] && a.Syncs? {
        SyncLog(a.ok);
        step := FlushSync(a.ok);
      } else {
        return;
      }
      steps := [step];
      PathOne(s, step, Abs());
    }

    /** Or it is in the middle of a flush. */
    method PerformStore(a: Action) returns (ghost steps: seq<Step>)
      requires Valid() && a.Stores?
      modifies this`at, this`checkpointStalled, store
      ensures Valid() && Path(old(Abs()), steps, Abs()) && Responds(old(Abs()), a, steps)
    {
      ghost var s, step := Abs(), FlushStore(a.store.None?);
      steps := [];
      if at.Serving? && at.stage.Synced? {
        WriteStore(a.store);
        steps := [step];
        PathOne(s, step, Abs());
      }
    }

    method PerformMark(a: Action) returns (ghost steps: seq<Step>)
      requires Valid() && a.Marks?
      modifies this`at, this`checkpointStalled, wal, wal.dir
      ensures Valid() && Path(old(Abs()), steps, Abs()) && Responds(old(Abs()), a, steps)
    {
      ghost var s := Abs();
      steps := [];
      if at.Serving? && at.stage.Written? {
        var _, last := AdvanceCheckpoint(a.checkpoint, a.stuck);
        steps := [last];
        PathOne(s, last, Abs());
      }
    }

    method PerformEnd(a: Action) returns (ghost steps: seq<Step>)
      requires Valid() && a.Ends?
      modifies this`at, this`batch, this`maxSeq
      ensures Valid() && Path(old(Abs()), steps, Abs()) && Responds(old(Abs()), a, steps)
    {
      ghost var s := Abs();
      steps := [];
      if at.Serving? && at.stage.Settled? {
        EndFlush();
        steps := [FlushEnd];
        PathOne(s, FlushEnd, Abs());
      }
    }

    /** One action of a schedule. */
    method Perform(a: Action) returns (ghost steps: seq<Step>)
      requires Valid() && |wal.dir.history| + 2 < TWO_64 && a.Ids() !! Known(Abs())
      modifies this, wal, wal.dir, store
      ensures Valid() && Path(old(Abs()), steps, Abs()) && Responds(old(Abs()), a, steps)
    {
      if a.Arrives? || a.Appends? {
        UnusedIs(Abs(), a.e);
        steps := PerformProducer(a);
      } else if a.Sends? || a.Stops? || a.Dies? {
        steps := PerformOutside(a);
      } else if a.Receives? || a.Syncs? {
        steps := PerformCollecting(a);
      } else if a.Stores? {
        steps := PerformStore(a);
      } else if a.Marks? {
        steps := PerformMark(a);
      } else {
        steps := PerformEnd(a);
      }
    }

    /** A schedule from one state to another, and what each action came to. */
    ghost predicate Plays(s: System, schedule: seq<Action>, parts: seq<seq<Step>>, s': System)
      decreases |parts|
    {
      |parts| <= |schedule| &&
      if parts == [] then s == s'
      else
        var k := |parts| - 1;
        exists m :: Plays(s, schedule, parts[..k], m) && Path(m, parts[k], s') && Responds(m, schedule[k], parts[k])
    }

    /** The same as one path. */
    ghost predicate Played(s: System, schedule: seq<Action>, parts: seq<seq<Step>>, steps: seq<Step>, s': System) {
      Plays(s, schedule, parts, s') && steps == Flat(parts) && Path(s, steps, s')
    }

    lemma PlayedMore(s: System, schedule: seq<Action>, parts: seq<seq<Step>>, steps: seq<Step>, m: System,
                     part: seq<Step>, s': System)
      requires Played(s, schedule, parts, steps, m) && |parts| < |schedule|
      requires Path(m, part, s') && Responds(m, schedule[|parts|], part)
      ensures Played(s, schedule, parts + [part], steps + part, s')
    {
      assert (parts + [part])[..|parts|] == parts;
      PathConcat(s, steps, m, part, s');
    }

    /** Producers, the batch writer and crashes in any order, each step of a flush
        on its own: whatever the schedule, every action that is possible takes its
        step, and the steps are a path of the system. */
    method Interleave(schedule: seq<Action>) returns (ghost parts: seq<seq<Step>>, ghost steps: seq<Step>)
      requires Valid() && |wal.dir.history| + |schedule| + 1 < TWO_64
      requires IdsLeft(Known(Abs()), schedule, 0)
      modifies this, wal, wal.dir, store
      ensures Valid() && |parts| == |schedule| && Played(old(Abs()), schedule, parts, steps, Abs())
    {
      ghost var s := Abs();
      parts, steps := [], [];
      for i := 0 to |schedule|
        invariant Valid() && |parts| == i && Played(s, schedule, parts, steps, Abs())
        invariant |wal.dir.history| + |schedule| - i + 1 < TWO_64 && IdsLeft(Known(Abs()), schedule, i)
      {
        ghost var before := Abs();
        ghost var more := Perform(schedule[i]);
        ActionIs(before, schedule[i], more, Abs());
        IdsLater(Known(before), Known(Abs()), schedule, i);
        PlayedMore(s, schedule, parts, steps, before, more, Abs());
        parts, steps := parts + [more], steps + more;
      }
    }

    lemma ActionIs(s: System, a: Action, steps: seq<Step>, s': System)
      requires Path(s, steps, s') && Responds(s, a, steps)
      ensures Known(s') <= Known(s) + a.Ids() && |s'.history| <= |s.history| + 1
    {
      KnownAlong(s, steps, s');
      FewSteps(steps);
    }

    // ----- recovery -----------------------------------------------------------------

    /** Recovery under way: n records were read, the last of them are pending
        and the ones before are back in the store. */
    ghost predicate Reading(h: seq<LogEvent>, pending: seq<LogEvent>, n: nat)
      reads this, wal, wal.dir, store
    {
      match at
      case Replaying(pos) => Valid() && h == Abs().history && pos + |pending| == n <= |h| && pending == h[pos..n]
      case _ => false
    }

    /** Recover replays the log above the checkpoint into the store, batch by
        batch, and only then advances the checkpoint. When it succeeds every
        logged event is stored; when it fails the process gives up. */
    method Recover(storeFault: nat -> Sqlite.Fault, fault: CheckpointFault, stuck: set<nat>) returns (ok: bool, ghost steps: seq<Step>)
      requires Valid() && at == Replaying(wal.checkpoint)
      modifies this`at, wal, wal.dir, store
      ensures Valid() && Path(old(Abs()), steps, Abs()) && at == if ok then IDLE else Dead
      ensures ok ==> wal.dir.persisted == |wal.dir.history| && StoredBelow(Abs().history, store.events, |Abs().history|)
      ensures wal.dir.history == old(wal.dir.history)
      ensures ok <== fault.NoCheckpointFault? && forall n :: storeFault(n).None?
    {
      ghost var s := Abs();
      var records := wal.Replay();
      RecordsDecode(json, wal.dir.history, wal.checkpoint);
      var last;
      ok, last, steps := RecoverRecords(records, storeFault, s, wal.checkpoint);
      if ok {
        ok, steps := RecoverEnd(last, fault, stuck, s, steps);
      }
    }

    method RecoverRecords(records: seq<Record>, storeFault: nat -> Sqlite.Fault, ghost s: System, ghost base: nat)
      returns (ok: bool, last: nat, ghost steps: seq<Step>)
      requires Reading(s.history, [], base) && s == Abs() && base + |records| == |s.history|
      requires forall i :: 0 <= i < |records| ==>
        records[i].seqNo == base + 1 + i && json.unmarshal(records[i].payload) == Some(s.history[base + i])
      modifies this`at, store
      ensures Valid() && Path(s, steps, Abs()) && at == if ok then Replaying(|s.history|) else Dead
      ensures ok ==> last == if records == [] then 0 else |s.history|
      ensures ok <== forall n :: storeFault(n).None?
    {
      var pending, flushes;
      ok, last, pending, flushes, steps := ReadRecords(records, storeFault, s, base);
      if ok && pending != [] {
        steps := RecoverBatch(pending, storeFault(flushes), s, steps, |s.history|);
        ok := storeFault(flushes).None?;
      }
    }

    /** The replay; the records after the last full batch are left to write. */
    method ReadRecords(records: seq<Record>, storeFault: nat -> Sqlite.Fault, ghost s: System, ghost base: nat)
      returns (ok: bool, last: nat, pending: seq<LogEvent>, flushes: nat, ghost steps: seq<Step>)
      requires Reading(s.history, [], base) && s == Abs() && base + |records| == |s.history|
      requires forall i :: 0 <= i < |records| ==>
        records[i].seqNo == base + 1 + i && json.unmarshal(records[i].payload) == Some(s.history[base + i])
      modifies this`at, store
      ensures Valid() && Path(s, steps, Abs())
      ensures if ok then Reading(s.history, pending, |s.history|) else at == Dead
      ensures ok ==> last == if records == [] then 0 else |s.history|
      ensures ok <== forall n :: storeFault(n).None?
    {
      pending, flushes, last, steps := [], 0, 0, [];
      for i := 0 to |records|
        invariant Reading(s.history, pending, base + i)
        invariant Path(s, steps, Abs())
        invariant last == if i == 0 then 0 else base + i
      {
        var decoded := json.unmarshal(records[i].payload);
        assert decoded == Some(s.history[base + i]) && records[i].seqNo == base + i + 1;
        if decoded.Some? {
          last := records[i].seqNo;
          pending, steps := RecoverEvent(decoded.value, pending, storeFault(flushes), s, steps, base + i);
          if pending == [] {
            if storeFault(flushes).Some? {
              return false, last, pending, flushes, steps;
            }
            flushes := flushes + 1;
          }
        }
      }
      ok := true;
    }

    /** The visitor of the replay: a full batch goes to the store. */
    method RecoverEvent(e: LogEvent, before: seq<LogEvent>, fault: Sqlite.Fault, ghost s: System, ghost steps: seq<Step>, ghost n: nat)
      returns (pending: seq<LogEvent>, ghost steps': seq<Step>)
      requires Reading(s.history, before, n) && n < |s.history| && e == s.history[n]
      requires Path(s, steps, Abs())
      modifies this`at, store
      ensures Valid() && Path(s, steps', Abs())
      ensures if pending == [] && fault.Some? then at == Dead else Reading(s.history, pending, n + 1)
    {
      pending, steps' := before + [e], steps;
      if |pending| >= batchSize {
        steps' := RecoverBatch(pending, fault, s, steps, n + 1);
        pending := [];
      }
    }

    /** The flush of recovery: the next records go to the store. */
    method RecoverBatch(pending: seq<LogEvent>, fault: Sqlite.Fault, ghost s: System, ghost steps: seq<Step>, ghost n: nat)
      returns (ghost steps': seq<Step>)
      requires pending != [] && Reading(s.history, pending, n) && Path(s, steps, Abs())
      modifies this`at, store
      ensures Valid() && Path(s, steps', Abs())
      ensures if fault.None? then Reading(s.history, [], n) else at == Dead
    {
      ghost var before, step := Abs(), RecoverFlush(|pending|, fault.None?);
      WriteRecovered(pending, fault);
      PathSnoc(s, steps, before, step);
      steps' := steps + [step];
    }

    method WriteRecovered(pending: seq<LogEvent>, fault: Sqlite.Fault)
      requires pending != [] && Valid() && at.Replaying? && at.pos + |pending| <= |wal.dir.history|
      requires pending == Abs().history[at.pos..at.pos + |pending|]
      modifies this`at, store
      ensures Valid() && Enabled(old(Abs()), RecoverFlush(|pending|, fault.None?))
      ensures Abs() == Next(old(Abs()), RecoverFlush(|pending|, fault.None?))
      ensures at == if fault.None? then Replaying(old(at.pos) + |pending|) else Dead
    {
      ghost var s := Abs();
      var ok := store.Append(pending, fault);
      at := if ok then Replaying(at.pos + |pending|) else Dead;
      FlushedNext(s, |pending|, ok, Abs());
    }

    /** The end of recovery: the checkpoint, if anything was replayed. */
    method RecoverEnd(last: nat, fault: CheckpointFault, stuck: set<nat>, ghost s: System, ghost steps: seq<Step>)
      returns (ok: bool, ghost steps': seq<Step>)
      requires Valid() && at == Replaying(|wal.dir.history|)
      requires last == if wal.checkpoint == |wal.dir.history| then 0 else |wal.dir.history|
      requires Path(s, steps, Abs())
      modifies this`at, wal, wal.dir
      ensures Valid() && Path(s, steps', Abs()) && wal.dir.history == old(wal.dir.history)
      ensures at == if ok then IDLE else Dead
      ensures ok ==> wal.dir.persisted == |wal.dir.history| && StoredBelow(Abs().history, store.events, |Abs().history|)
      ensures ok <== fault.NoCheckpointFault?
    {
      ghost var before, step := Abs(), RecoverFinish(true);
      if last > 0 {
        ok, step := MarkRecovered(last, fault, stuck);
      } else {
        ok := true;
        NothingRecovered();
      }
      PathSnoc(s, steps, before, step);
      steps' := steps + [step];
    }

    method MarkRecovered(last: nat, fault: CheckpointFault, stuck: set<nat>) returns (ok: bool, ghost step: Step)
      requires Valid() && at == Replaying(|wal.dir.history|) && wal.checkpoint < last == |wal.dir.history|
      modifies this`at, wal, wal.dir
      ensures Valid() && Enabled(old(Abs()), step) && Abs() == Next(old(Abs()), step)
      ensures wal.dir.history == old(wal.dir.history) && at == if ok then IDLE else Dead
      ensures ok ==> wal.dir.persisted == last && StoredBelow(Abs().history, store.events, last)
      ensures ok <== fault.NoCheckpointFault?
    {
      ghost var before := Abs();
      var res := MarkLog(last, fault, stuck);
      ok := res.Done?;
      ghost var s';
      step, s' := RecoverStep(before, res, wal.dir.persisted);
      assert Abs() == s';
    }

    method MarkLog(last: nat, fault: CheckpointFault, stuck: set<nat>) returns (res: CheckpointResult)
      requires LogValid() && at.Replaying? && wal.checkpoint < last <= |wal.dir.history|
      modifies this`at, wal, wal.dir
      ensures LogValid() && wal.dir.history == old(wal.dir.history) && at == if res.Done? then IDLE else Dead
      ensures match res
              case Done => wal.dir.persisted == wal.checkpoint == last
              case NotWritten => wal.dir.persisted == old(wal.dir.persisted)
              case Died => wal.dir.persisted in {old(wal.dir.persisted), last}
      ensures fault.NoCheckpointFault? ==> res.Done?
    {
      res := wal.SetCheckpoint(last, fault, stuck);
      at := if res.Done? then IDLE else Dead;
    }

    method NothingRecovered()
      requires Valid() && at == Replaying(|wal.dir.history|) && wal.checkpoint == |wal.dir.history|
      modifies this`at
      ensures Valid() && at == IDLE
      ensures Enabled(old(Abs()), RecoverFinish(true)) && Abs() == Next(old(Abs()), RecoverFinish(true))
      ensures wal.dir.persisted == |wal.dir.history| && StoredBelow(Abs().history, store.events, |Abs().history|)
    {
      ghost var _, s' := RecoverStep(Abs(), Done, wal.dir.persisted);
      at := IDLE;
      assert Abs() == s';
    }
  }

  /** However the last step of recovery turns out, it is a step. */
  lemma RecoverStep(s: System, res: CheckpointResult, persisted: nat) returns (step: Step, s': System)
    requires Inv(s) && s.process == Recovering(|s.history|)
    requires match res
             case Done => persisted == |s.history|
             case NotWritten => persisted == s.persisted
             case Died => persisted in {s.persisted, |s.history|}
    ensures Enabled(s, step) && s' == Next(s, step) && Inv(s')
    ensures s' == System(s.history, persisted, s.store,
                         if res.Done? then Running(None, [], [], Collecting, false, false, |s.history|) else Down,
                         s.accepted, s.refused)
    ensures res.Done? ==> StoredBelow(s.history, s.store, |s.history|)
  {
    step := if res.Died? then Step.Crash(None, persisted != s.persisted) else RecoverFinish(res.Done?);
    s' := Next(s, step);
    NextInv(s, step);
  }

  /** Sequence numbers grow along the queue, so the last one is the largest. */
  lemma ReceivedSeq(s: System)
    requires Inv(s) && Enabled(s, Step.Receive)
    ensures s.process.queue[0].seqNo > LastSeq(s.process.batch)
  {
    BatchIsLogged(s);
    assert Pending(s.process)[|s.process.batch|] == s.process.queue[0];
  }

  /** What the checkpoint after a flush comes to: it is skipped once it has stalled,
      fails if the file cannot be written, and otherwise is written unless the
      process dies. */
  predicate MarksAs(stalled: bool, fault: CheckpointFault, step: Step) {
    if stalled then step == FlushCheckpoint(true)
    else
      match fault
      case NoCheckpointFault => step == FlushCheckpoint(true)
      case CheckpointWriteFault => step == FlushCheckpoint(false)
      case CrashBeforeRename => step == Step.Crash(None, false)
      case CrashAfterRename(_) => step == Step.Crash(None, true) || step == FlushCheckpoint(true)
  }

  predicate Free(p: Process) {
    p.Running? && p.inFlight.None?
  }

  predicate In(p: Process, stage: Stage) {
    p.Running? && p.stage == stage
  }

  /** What becomes of an event that a producer brings: it is taken if there is room
      and nothing fails, and otherwise refused, unless the process dies. */
  predicate Taken(room: bool, e: LogEvent, fault: AppendFault, done: seq<Step>, steps: seq<Step>) {
    if !room then steps == [EnqueueRefused(e)]
    else if fault.Kills() then steps == [Step.Crash(None, false)] || steps == [Step.Crash(Some(e), false)]
    else
      && (steps == done || steps == [EnqueueRefused(e)])
      && (fault.NoFault? ==> steps == done)
      && (fault.WriteFault? ==> steps == [EnqueueRefused(e)])
  }

  function Flat(parts: seq<seq<Step>>): seq<Step> {
    if parts == [] then [] else Flat(parts[..|parts| - 1]) + parts[|parts| - 1]
  }

  /** With nothing queued and nothing in flight the batch ends with the last
      record. */
  lemma LastOfAll(s: System)
    requires Inv(s) && s.process.Running? && s.process.batch != []
    ensures s.process.queue == [] && s.process.inFlight.None? ==> LastSeq(s.process.batch) == |s.history|
  {
    BatchIsLogged(s);
  }

  /** What SetCheckpoint may answer, and what it may leave behind, is a step. */
  lemma CheckpointStep(s: System, res: CheckpointResult, persisted: nat) returns (last: Step, s': System)
    requires Inv(s) && s.process.Running? && s.process.stage.Written? && !s.process.stalled
    requires persisted in {s.persisted, LastSeq(s.process.batch)}
    requires !res.Died? ==> (res.Done? <==> persisted == LastSeq(s.process.batch))
    ensures Enabled(s, last) && s' == Next(s, last) && Inv(s')
    ensures last == if res.Died? then Step.Crash(None, persisted != s.persisted) else FlushCheckpoint(res.Done?)
    ensures s' == System(s.history, persisted, s.store,
                         if res.Died? then Down
                         else Running(s.process.inFlight, s.process.queue, s.process.batch, Settled, res.NotWritten?,
                                      s.process.closed, LastSeq(s.process.batch)),
                         s.accepted, s.refused)
  {
    BatchIsStored(s);
    last := if res.Died? then Step.Crash(None, persisted != s.persisted) else FlushCheckpoint(res.Done?);
    s' := Next(s, last);
    NextInv(s, last);
  }

  lemma RecordsDecode(json: Json, h: History, cp: nat)
    requires Decodable(json, h) && cp <= |h|
    ensures forall i {:trigger Recs(h, cp + 1, |h| - cp)[i]} :: 0 <= i < |h| - cp ==>
              var r := Recs(h, cp + 1, |h| - cp)[i];
              r.seqNo == cp + 1 + i && json.unmarshal(r.payload) == Some(Decode(json, h)[cp + i])
  {
  }

  lemma FlushedNext(s: System, count: nat, ok: bool, s': System)
    requires Inv(s) && s.process.Recovering?
    requires var pos := s.process.pos;
             && pos + count <= |s.history|
             && s' == if ok then s.(store := Upsert(s.store, s.history[pos..pos + count]), process := Recovering(pos + count))
                      else s.(process := Down)
    ensures Enabled(s, RecoverFlush(count, ok)) && s' == Next(s, RecoverFlush(count, ok)) && Inv(s')
  {
    NextInv(s, RecoverFlush(count, ok));
  }

  lemma StoredNext(s: System, ok: bool, s': System)
    requires Inv(s) && Enabled(s, FlushStore(ok))
    requires var p := s.process;
             s' == if ok then s.(store := Upsert(s.store, EventsOf(p.batch)), process := p.(stage := Written))
                   else s.(process := p.(stage := Settled, stalled := true))
    ensures s' == Next(s, FlushStore(ok)) && Inv(s')
  {
    NextInv(s, FlushStore(ok));
  }

  lemma LoggedNext(s: System, e: LogEvent, s': System)
    requires Inv(s) && Enabled(s, EnqueueAppend(e))
    requires s'.history == s.history + [e] && s'.persisted == s.persisted && s'.store == s.store
    requires s'.process == s.process.(inFlight := Some(Queued(e, |s'.history|)))
    requires s'.accepted == s.accepted && s'.refused == s.refused
    ensures s' == Next(s, EnqueueAppend(e)) && Inv(s')
  {
    NextInv(s, EnqueueAppend(e));
  }

  lemma DecodeMore(json: Json, h: History, payload: seq<byte>, e: LogEvent)
    requires Decodable(json, h) && json.unmarshal(payload) == Some(e)
    ensures Decodable(json, h + [payload]) && Decode(json, h + [payload]) == Decode(json, h) + [e]
  {
  }

  lemma OneStep(step: Step)
    ensures IdsIn([step]) == IdsOf(step) && LoggedIn([step]) == Logged(step)
  {
    assert [step][1..] == [];
  }

  lemma FewSteps(steps: seq<Step>)
    requires |steps| <= 2
    ensures IdsIn(steps) == if |steps| == 0 then {} else if |steps| == 1 then IdsOf(steps[0])
                            else IdsOf(steps[0]) + IdsOf(steps[1])
    ensures LoggedIn(steps) == if |steps| == 0 then 0 else if |steps| == 1 then Logged(steps[0])
                               else Logged(steps[0]) + Logged(steps[1])
  {
    if |steps| == 1 {
      assert steps == [steps[0]];
      OneStep(steps[0]);
    } else if |steps| == 2 {
      OneStep(steps[1]);
      assert steps[1..] == [steps[1]];
    }
  }

  lemma PathOne(s: System, a: Step, s': System)
    requires Enabled(s, a) && s' == Next(s, a)
    ensures Path(s, [a], s')
  {
    assert [a][1..] == [];
  }

  lemma PathTwo(s: System, a: Step, b: Step, s': System)
    requires Enabled(s, a) && Enabled(Next(s, a), b) && s' == Next(Next(s, a), b)
    ensures Path(s, [a, b], s')
  {
    PathOne(Next(s, a), b, s');
    assert [a, b][1..] == [b];
  }
}
