/** Alert rules: the value an aggregation reports, the lifecycle of a rule, and
    the notifications its evaluations send. */
module Alert {
  import opened Model

  datatype Op = Gt | Gte | Lt | Lte | Eq | Ne

  datatype Condition = Condition(op: Op, value: real) {
    predicate Match(v: real) {
      match op
      case Gt => v > value
      case Gte => v >= value
      case Lt => v < value
      case Lte => v <= value
      case Eq => v == value
      case Ne => v != value
    }
  }

  // ----- evaluating an aggregation -------------------------------------------------

  predicate MoreExtreme(op: Op, a: real, b: real) {
    match op
    case Lt => a < b
    case Lte => a < b
    case Eq => false
    case _ => a > b
  }

  /** The measures of the rows, where a row has a number there. */
  function Numbers(rows: seq<Option<real>>): seq<real> {
    if rows == [] then []
    else
      var front, last := rows[..|rows| - 1], rows[|rows| - 1];
      Numbers(front) + if last.Some? then [last.value] else []
  }

  /** The worst of some values: none is further along the condition's direction;
      for equality, which has no direction, the first. */
  ghost predicate Worst(op: Op, vs: seq<real>, v: real) {
    vs != [] && if op.Eq? then v == vs[0] else v in vs && forall x :: x in vs ==> !MoreExtreme(op, x, v)
  }

  ghost predicate Any(cond: Condition, vs: seq<real>) {
    exists x :: x in vs && cond.Match(x)
  }

  method EvaluateAggregation(cond: Condition, rows: seq<Option<real>>)
    returns (value: real, firing: bool, hits: seq<real>)
    ensures var vs := Numbers(rows);
            if vs == [] then value == 0.0 && (firing <==> cond.Match(0.0)) && hits == []
            else Worst(cond.op, vs, value) && (firing <==> Any(cond, vs))
    ensures forall x :: x in hits <==> x in Numbers(rows) && cond.Match(x)
  {
    value, firing, hits := 0.0, false, [];
    var seen := false;
    for i := 0 to |rows|
      invariant seen <==> Numbers(rows[..i]) != []
      invariant seen ==> Worst(cond.op, Numbers(rows[..i]), value)
      invariant firing <==> Any(cond, Numbers(rows[..i]))
      invariant forall x :: x in hits <==> x in Numbers(rows[..i]) && cond.Match(x)
      invariant !seen ==> hits == [] && !firing
    {
      assert rows[..i + 1][..i] == rows[..i];
      ghost var before := Numbers(rows[..i]);
      if rows[i].None? {
        continue;
      }
      var v := rows[i].value;
      assert Numbers(rows[..i + 1]) == before + [v];
      WorstOfMore(cond.op, before, value, v);
      if !seen || MoreExtreme(cond.op, v, value) {
        value, seen := v, true;
      }
      if cond.Match(v) {
        firing, hits := true, hits + [v];
      }
    }
    assert rows[..|rows|] == rows;
    if !seen {
      value, firing := 0.0, cond.Match(0.0);
    }
  }

  lemma WorstOfMore(op: Op, vs: seq<real>, value: real, v: real)
    requires vs != [] ==> Worst(op, vs, value)
    ensures Worst(op, vs + [v], if vs == [] || MoreExtreme(op, v, value) then v else value)
  {
  }

  /** For the ordered conditions a rule fires exactly when its condition holds of
      the value it reports. It also fires without that for !=, when the largest
      row is the threshold and another is below it, and for ==, when a row other
      than the first is the threshold. */
  lemma FiresOnReportedValue(cond: Condition, vs: seq<real>, value: real)
    requires Worst(cond.op, vs, value)
    ensures (Any(cond, vs) <==> cond.Match(value)) <==>
      match cond.op
      case Ne => !(cond.value in vs && (forall x :: x in vs ==> x <= cond.value) && exists x :: x in vs && x < cond.value)
      case Eq => !(vs[0] != cond.value && cond.value in vs)
      case _ => true
  {
    assert cond.op.Eq? ==> vs[0] in vs;
    if cond.Match(value) {
      assert value in vs;
    }
  }

  /** Rows of 1 and 2 fire on == 2, reporting 1, and on != 2, reporting 2. */
  lemma FiresOnAnotherValue()
    ensures var vs := [1.0, 2.0];
            && (forall v :: Worst(Eq, vs, v) <==> v == 1.0)
            && (forall v :: Worst(Ne, vs, v) <==> v == 2.0)
            && Any(Condition(Eq, 2.0), vs) && !Condition(Eq, 2.0).Match(1.0)
            && Any(Condition(Ne, 2.0), vs) && !Condition(Ne, 2.0).Match(2.0)
  {
    var vs := [1.0, 2.0];
    assert vs[0] in vs && vs[1] in vs;
  }

  // ----- the lifecycle of a rule --------------------------------------------------------

  datatype State = Ok | Firing | Unknown

  /** How an evaluation of a rule comes out. */
  datatype Outcome = Failed | Quiet | Fires

  datatype Note = Alarm | Resolved

  function NextState(outcome: Outcome): State {
    match outcome case Failed => Unknown case Quiet => Ok case Fires => Firing
  }

  /** Only a transition into or out of firing is notified. */
  function NoteOf(prev: State, outcome: Outcome): Option<Note> {
    if outcome.Fires? && !prev.Firing? then Option.Some(Alarm)
    else if outcome.Quiet? && prev.Firing? then Option.Some(Resolved)
    else None
  }

  /** An evaluation of a rule: when, the rule's interval then, and the outcome. */
  datatype Run = Run(at: int, interval: int, outcome: Outcome)

  function StateAfter(runs: seq<Run>): State {
    if runs == [] then Unknown else NextState(runs[|runs| - 1].outcome)
  }

  function Sent(note: Option<Note>): seq<Note> {
    match note case Some(n) => [n] case None => []
  }

  /** The notifications that a history of evaluations sends. */
  function Notes(runs: seq<Run>): seq<Note> {
    if runs == [] then []
    else
      var front, last := runs[..|runs| - 1], runs[|runs| - 1];
      Notes(front) + Sent(NoteOf(StateAfter(front), last.outcome))
  }

  ghost predicate Spaced(runs: seq<Run>) {
    SpacedFrom(runs, 0)
  }

  /** The evaluations after the n-th, counted from zero, each came an interval after
      the one before. */
  ghost predicate SpacedFrom(runs: seq<Run>, n: nat) {
    forall i, j {:trigger runs[i], runs[j]} :: n <= i && j == i + 1 && j < |runs| ==>
      runs[j].at >= runs[i].at + runs[i].interval
  }

  /** While a rule is firing, the last notification was the alarm. */
  lemma {:induction false} FiringWasNotified(runs: seq<Run>)
    requires StateAfter(runs).Firing?
    ensures Notes(runs) != [] && Notes(runs)[|Notes(runs)| - 1].Alarm?
    decreases |runs|
  {
    var front := runs[..|runs| - 1];
    if StateAfter(front).Firing? {
      FiringWasNotified(front);
    }
  }

  /** Over every history, a resolution directly follows an alarm. */
  lemma {:induction false} ResolvedFollowsAlarm(runs: seq<Run>, i: nat)
    requires i < |Notes(runs)| && Notes(runs)[i].Resolved?
    ensures i > 0 && Notes(runs)[i - 1].Alarm?
    decreases |runs|
  {
    var front := runs[..|runs| - 1];
    if i < |Notes(front)| {
      ResolvedFollowsAlarm(front, i);
    } else {
      FiringWasNotified(front);
    }
  }

  ghost predicate Alternate(notes: seq<Note>) {
    forall i :: 0 < i < |notes| ==> notes[i] != notes[i - 1]
  }

  /** A rule fires, and its next evaluation fails: it is no longer firing, so its
      recovery is not announced, and it fires again. */
  ghost predicate Relapse(runs: seq<Run>, i: nat, j: nat) {
    && i + 1 < j < |runs| && runs[i].outcome.Fires? && runs[i + 1].outcome.Failed? && runs[j].outcome.Fires?
    && forall k :: i < k < j ==> !runs[k].outcome.Fires?
  }

  ghost predicate Relapses(runs: seq<Run>) {
    exists i: nat, j: nat :: Relapse(runs, i, j)
  }

  /** The rule failed right after it fired last. */
  ghost predicate Lapsed(runs: seq<Run>, i: nat) {
    && i + 1 < |runs| && runs[i].outcome.Fires? && runs[i + 1].outcome.Failed?
    && forall k :: i < k < |runs| ==> !runs[k].outcome.Fires?
  }

  ghost predicate EndsInAlarm(notes: seq<Note>) {
    notes != [] && notes[|notes| - 1].Alarm?
  }

  /** An alarm is the last notification of a rule that is not firing exactly when
      an evaluation failed right after it. */
  lemma {:induction false} InDoubt(runs: seq<Run>)
    ensures EndsInAlarm(Notes(runs)) && !StateAfter(runs).Firing? <==> exists i: nat :: Lapsed(runs, i)
    decreases |runs|
  {
    if runs != [] {
      var front, last := runs[..|runs| - 1], runs[|runs| - 1];
      InDoubt(front);
      if StateAfter(front).Firing? {
        FiringWasNotified(front);
      }
      assert runs == front + [last];
      if i: nat :| Lapsed(runs, i) {
        LapsedLater(front, last, i);
      }
      if i: nat :| Lapsed(front, i) {
        LapsedLater(front, last, i);
      }
      if StateAfter(front).Firing? && last.outcome.Failed? {
        LapsedLater(front, last, |front| - 1);
      }
    }
  }

  /** One evaluation later. */
  lemma LapsedLater(front: seq<Run>, last: Run, i: nat)
    ensures i + 1 < |front| ==> (Lapsed(front + [last], i) <==> Lapsed(front, i) && !last.outcome.Fires?)
    ensures i + 1 == |front| ==>
      (Lapsed(front + [last], i) <==> front[i].outcome.Fires? && last.outcome.Failed?)
  {
    var runs := front + [last];
    assert forall k :: 0 <= k < |front| ==> runs[k] == front[k];
    assert runs[|front|] == last;
  }

  lemma LastRelapse(runs: seq<Run>)
    requires runs != []
    ensures var front, last := runs[..|runs| - 1], runs[|runs| - 1];
            Relapses(runs) <==> Relapses(front) || (last.outcome.Fires? && exists i: nat :: Lapsed(front, i))
  {
    var front, last := runs[..|runs| - 1], runs[|runs| - 1];
    assert forall k :: 0 <= k < |front| ==> front[k] == runs[k];
    if i: nat, j: nat :| Relapse(runs, i, j) {
      assert if j < |front| then Relapse(front, i, j) else Lapsed(front, i);
    }
    if i: nat, j: nat :| Relapse(front, i, j) {
      assert Relapse(runs, i, j);
    }
    if i: nat :| Lapsed(front, i) {
      assert last.outcome.Fires? ==> Relapse(runs, i, |front|);
    }
  }

  /** Alarms and resolutions strictly alternate exactly when the rule never
      relapses; in particular when no evaluation fails. */
  lemma {:induction false} AlternateExactlyWhen(runs: seq<Run>)
    ensures Alternate(Notes(runs)) <==> !Relapses(runs)
    decreases |runs|
  {
    if runs != [] {
      var front, last := runs[..|runs| - 1], runs[|runs| - 1];
      AlternateExactlyWhen(front);
      InDoubt(front);
      LastRelapse(runs);
      var before, note := Notes(front), NoteOf(StateAfter(front), last.outcome);
      if StateAfter(front).Firing? {
        FiringWasNotified(front);
      }
      if note.Some? {
        AlternateMore(before, note.value);
        assert note.value.Alarm? ==> (EndsInAlarm(before) <==> before != [] && before[|before| - 1] == note.value);
      } else {
        assert Notes(runs) == before;
      }
    }
  }

  lemma AlternateMore(notes: seq<Note>, n: Note)
    ensures Alternate(notes + [n]) <==> Alternate(notes) && (notes == [] || notes[|notes| - 1] != n)
  {
    var more := notes + [n];
    assert notes != [] ==> more[|notes| - 1] == notes[|notes| - 1] && more[|notes|] == n;
    assert forall i :: 0 <= i < |notes| ==> more[i] == notes[i];
  }

  // ----- recoveries that are not announced ----------------------------------------------

  /** What evaluation k of a history sends. */
  function NoteAt(runs: seq<Run>, k: nat): Option<Note>
    requires k < |runs|
  {
    NoteOf(StateAfter(runs[..k]), runs[k].outcome)
  }

  ghost predicate Sends(runs: seq<Run>, k: nat, note: Note) {
    k < |runs| && NoteAt(runs, k) == Option.Some(note)
  }

  /** The alarm of evaluation i was followed by its resolution, before any other
      alarm. */
  ghost predicate Announced(runs: seq<Run>, i: nat) {
    exists k: nat :: i < k && Sends(runs, k, Resolved) && forall m: nat :: i < m < k ==> !Sends(runs, m, Alarm)
  }

  /** The rule went on firing from evaluation i to the one before k. */
  ghost predicate FiresTo(runs: seq<Run>, i: nat, k: nat) {
    i < k < |runs| && forall m: nat {:trigger runs[m]} :: i <= m < k ==> runs[m].outcome.Fires?
  }

  /** The first evaluation that does not find the rule firing fails. */
  ghost predicate FailsNext(runs: seq<Run>, i: nat) {
    exists k: nat :: FiresTo(runs, i, k) && runs[k].outcome.Failed?
  }

  lemma StateBefore(runs: seq<Run>, k: nat)
    requires 0 < k < |runs|
    ensures StateAfter(runs[..k]) == NextState(runs[k - 1].outcome)
  {
    assert runs[..k][|runs[..k]| - 1] == runs[k - 1];
  }

  /** Between a failure and a later resolution there is another alarm. */
  lemma {:induction false} AlarmedAgain(runs: seq<Run>, k: nat, r: nat)
    requires k < r && Sends(runs, r, Resolved) && !runs[k].outcome.Fires?
    ensures exists m: nat :: k < m < r && Sends(runs, m, Alarm)
    decreases r
  {
    StateBefore(runs, r);
    assert runs[r - 1].outcome.Fires?;
    StateBefore(runs, r - 1);
    if runs[r - 2].outcome.Fires? {
      EarlierAlarm(runs, k, r - 1);
    } else {
      assert Sends(runs, r - 1, Alarm);
    }
  }

  lemma {:induction false} EarlierAlarm(runs: seq<Run>, k: nat, f: nat)
    requires k < f < |runs| && !runs[k].outcome.Fires? && runs[f].outcome.Fires?
    ensures exists m: nat :: k < m <= f && Sends(runs, m, Alarm)
    decreases f
  {
    StateBefore(runs, f);
    if runs[f - 1].outcome.Fires? {
      EarlierAlarm(runs, k, f - 1);
    } else {
      assert Sends(runs, f, Alarm);
    }
  }

  lemma {:induction false} SpellEnds(runs: seq<Run>, i: nat, q: nat) returns (k: nat)
    requires i < q < |runs| && runs[i].outcome.Fires? && !runs[q].outcome.Fires?
    ensures FiresTo(runs, i, k) && !runs[k].outcome.Fires?
    decreases q - i
  {
    if runs[i + 1].outcome.Fires? {
      k := SpellEnds(runs, i + 1, q);
    } else {
      k := i + 1;
    }
  }

  /** The recovery of a rule that fired and was later quiet is announced if and
      only if no evaluation failed right after it last fired. */
  lemma AnnouncedExactlyWhen(runs: seq<Run>, i: nat, q: nat)
    requires Sends(runs, i, Alarm) && i < q < |runs| && runs[q].outcome.Quiet?
    ensures Announced(runs, i) <==> !FailsNext(runs, i)
  {
    var k := SpellEnds(runs, i, q);
    StateBefore(runs, k);
    forall m: nat | i < m < k ensures !Sends(runs, m, Alarm) && !Sends(runs, m, Resolved) {
      StateBefore(runs, m);
    }
    if runs[k].outcome.Quiet? {
      assert Sends(runs, k, Resolved);
    } else if r: nat :| i < r && Sends(runs, r, Resolved) && forall m: nat :: i < m < r ==> !Sends(runs, m, Alarm) {
      AlarmedAgain(runs, k, r);
    }
  }

  /** Fires, fails, and is quiet: the recovery is never announced, although the
      notifications, a single alarm, alternate. */
  lemma QuietAfterFailure(a: Run, b: Run, c: Run)
    requires a.outcome.Fires? && b.outcome.Failed? && c.outcome.Quiet?
    ensures Notes([a, b, c]) == [Alarm] && Alternate(Notes([a, b, c])) && !Announced([a, b, c], 0)
  {
    NotesOfThree(a, b, c);
    var runs := [a, b, c];
    assert FiresTo(runs, 0, 1);
    assert StateAfter(runs[..0]) == Unknown;
    AnnouncedExactlyWhen(runs, 0, 2);
  }

  /** Fires, fails, and fires again: two alarms in a row. */
  lemma AlarmAfterFailure(a: Run, b: Run, c: Run)
    requires a.outcome.Fires? && b.outcome.Failed? && c.outcome.Fires?
    ensures Notes([a, b, c]) == [Alarm, Alarm] && !Alternate(Notes([a, b, c]))
  {
    NotesOfThree(a, b, c);
    var notes := Notes([a, b, c]);
    assert notes[1] == notes[0];
  }

  lemma NotesOfThree(a: Run, b: Run, c: Run)
    requires a.outcome.Fires? && b.outcome.Failed?
    ensures Notes([a, b, c]) == if c.outcome.Fires? then [Alarm, Alarm] else [Alarm]
  {
    assert [a, b, c][..2] == [a, b] && [a, b][..1] == [a] && [a][..0] == [];
    assert Notes([a]) == [Alarm];
    assert Notes([a, b]) == [Alarm];
  }

  // ----- the scheduler ---------------------------------------------------------------------

  datatype Rule = Rule(interval: int, enabled: bool, state: State)

  /** What is known of one rule: how it is stored, when it is due again, and its
      evaluations so far. */
  datatype Slot = Slot(rule: Option<Rule>, next: Option<int>, past: seq<Run>)

  /** Of every ID, also those of no rule. */
  type Slots = m: imap<string, Slot> | forall id :: id in m ghost witness imap id :: Slot(None, None, [])

  /** The rule is enabled and its slot has come. */
  predicate Turn(slot: Slot, now: int) {
    slot.rule.Some? && slot.rule.value.enabled && (slot.next.Some? ==> now >= slot.next.value)
  }

  /** A pass evaluates the rule once if it is its turn, and otherwise leaves it
      alone. */
  function Passed(slot: Slot, now: int, outcome: Outcome): Slot {
    if !Turn(slot, now) then slot
    else
      var rule := slot.rule.value;
      Slot(Option.Some(rule.(state := NextState(outcome))), Option.Some(now + rule.interval),
           slot.past + [Run(now, rule.interval, outcome)])
  }

  /** A stored state is that of the last evaluation. Of the evaluations of this
      process, each came an interval after the one before, and the slot of the
      rule is an interval after the last. */
  ghost predicate Tracked(before: seq<Run>, slot: Slot) {
    && before <= slot.past && SpacedFrom(slot.past, |before|)
    && (slot.rule.Some? ==> slot.rule.value.state == StateAfter(slot.past))
    && (slot.past != before ==>
          var last := slot.past[|slot.past| - 1]; slot.next == Option.Some(last.at + last.interval))
  }

  lemma PassedIsTracked(before: seq<Run>, slot: Slot, now: int, outcome: Outcome)
    requires Tracked(before, slot)
    ensures Tracked(before, Passed(slot, now, outcome))
  {
    var runs, runs' := slot.past, Passed(slot, now, outcome).past;
    assert forall i :: 0 <= i < |runs| ==> runs'[i] == runs[i];
  }

  /** Whatever a process tracks, the evaluations of a rule are spaced exactly when
      those of earlier processes were and the first of this one, if there is any,
      came an interval after their last. */
  lemma SpacedAcrossRestart(before: seq<Run>, slot: Slot)
    requires Tracked(before, slot)
    ensures Spaced(slot.past) <==>
      && Spaced(before)
      && (before == [] || slot.past == before
          || (var last := before[|before| - 1]; slot.past[|before|].at >= last.at + last.interval))
  {
    var runs, n := slot.past, |before|;
    assert forall i :: 0 <= i < n ==> runs[i] == before[i];
    if Spaced(runs) {
      forall i, j | 0 <= i && j == i + 1 && j < n ensures before[j].at >= before[i].at + before[i].interval {
        assert runs[j].at >= runs[i].at + runs[i].interval;
      }
    }
  }

  ghost function SlotOf(rules: map<string, Rule>, next: map<string, int>, past: map<string, seq<Run>>, id: string): Slot {
    Slot(if id in rules then Option.Some(rules[id]) else None,
         if id in next then Option.Some(next[id]) else None,
         RunsOf(past, id))
  }

  ghost function SlotsOf(rules: map<string, Rule>, next: map<string, int>, past: map<string, seq<Run>>): Slots {
    imap id :: SlotOf(rules, next, past, id)
  }

  lemma OneEvaluated(rules: map<string, Rule>, next: map<string, int>, past: map<string, seq<Run>>, id: string,
                     now: int, outcome: Outcome)
    requires id in rules && Turn(SlotOf(rules, next, past, id), now)
    ensures var rule := rules[id];
            var runs := RunsOf(past, id) + [Run(now, rule.interval, outcome)];
            var rules', next', past' :=
              rules[id := rule.(state := NextState(outcome))], next[id := now + rule.interval], past[id := runs];
            && SlotOf(rules', next', past', id) == Passed(SlotOf(rules, next, past, id), now, outcome)
            && forall x :: x != id ==> SlotOf(rules', next', past', x) == SlotOf(rules, next, past, x)
  {
  }

  lemma OneSlotChanges(slots: Slots, slots': Slots, id: string)
    requires forall x :: x != id ==> slots'[x] == slots[x]
    ensures slots' == slots[id := slots'[id]]
  {
    assert forall x :: x in slots && x in slots';
  }

  ghost predicate AllTracked(before: map<string, seq<Run>>, slots: Slots) {
    forall id {:trigger Tracked(RunsOf(before, id), slots[id])} :: Tracked(RunsOf(before, id), slots[id])
  }

  lemma PassKeepsTrack(before: map<string, seq<Run>>, slots: Slots, id: string, now: int, outcome: Outcome)
    requires AllTracked(before, slots)
    ensures AllTracked(before, slots[id := Passed(slots[id], now, outcome)])
  {
    assert Tracked(RunsOf(before, id), slots[id]);
    PassedIsTracked(RunsOf(before, id), slots[id], now, outcome);
  }

  class Scheduler {
    var rules: map<string, Rule>          // the stored rules
    var next: map<string, int>            // when each rule is due again
    ghost var past: map<string, seq<Run>> // its evaluations so far
    ghost const before: map<string, seq<Run>> // those of earlier processes

    ghost function Of(id: string): Slot
      reads this
    {
      SlotOf(rules, next, past, id)
    }

    ghost function All(): Slots
      reads this
    {
      SlotsOf(rules, next, past)
    }

    ghost predicate Valid()
      reads this
    {
      AllTracked(before, All())
    }

    /** A process starting on the stored rules: their states are kept, but not when
        they are due. */
    constructor (rules: map<string, Rule>, ghost past: map<string, seq<Run>>)
      requires forall id :: id in rules ==> rules[id].state == StateAfter(RunsOf(past, id))
      ensures Valid() && this.rules == rules && this.past == past && next == map[]
    {
      this.rules, next, this.past, before := rules, map[], past, past;
    }

    /** Whether the interval of a rule has elapsed; claims the slot. */
    method Due(id: string, interval: int, now: int) returns (due: bool)
      modifies this`next
      ensures due <==> id !in old(next) || now >= old(next)[id]
      ensures next == if due then old(next)[id := now + interval] else old(next)
    {
      if id in next && now < next[id] {
        return false;
      }
      next := next[id := now + interval];
      return true;
    }

    /** Evaluates a rule that is due, stores its state and notifies a transition. */
    method Evaluate(id: string, now: int, outcome: Outcome) returns (note: Option<Note>)
      requires id in rules && rules[id].state == StateAfter(Of(id).past)
      modifies this`rules, this`past
      ensures rules == old(rules)[id := old(rules)[id].(state := NextState(outcome))]
      ensures past == old(past)[id := old(Of(id).past) + [Run(now, old(rules[id].interval), outcome)]]
      ensures Notes(Of(id).past) == old(Notes(Of(id).past)) + Sent(note)
    {
      var rule := rules[id];
      note := NoteOf(rule.state, outcome);
      ghost var runs := Of(id).past + [Run(now, rule.interval, outcome)];
      assert runs[..|runs| - 1] == Of(id).past;
      rules := rules[id := rule.(state := NextState(outcome))];
      past := past[id := runs];
    }

    method RunRule(id: string, now: int, outcome: Outcome) returns (note: Option<Note>)
      requires Valid() && id in rules
      modifies this
      ensures Valid() && rules.Keys == old(rules).Keys
      ensures All() == old(All())[id := Passed(old(Of(id)), now, outcome)]
      ensures Notes(Of(id).past) == old(Notes(Of(id).past)) + Sent(note)
    {
      ghost var slots := All();
      assert Tracked(RunsOf(before, id), slots[id]);
      note := Visit(id, now, outcome);
      forall x | x != id ensures All()[x] == slots[x] {
        assert Of(x) == old(Of(x));
      }
      OneSlotChanges(slots, All(), id);
      PassKeepsTrack(before, slots, id, now, outcome);
    }

    method Visit(id: string, now: int, outcome: Outcome) returns (note: Option<Note>)
      requires id in rules && rules[id].state == StateAfter(Of(id).past)
      modifies this
      ensures rules.Keys == old(rules).Keys
      ensures Of(id) == Passed(old(Of(id)), now, outcome) && forall x :: x != id ==> Of(x) == old(Of(x))
      ensures Notes(Of(id).past) == old(Notes(Of(id).past)) + Sent(note)
    {
      note := None;
      var rule := rules[id];
      if !rule.enabled {
        return;
      }
      var due := Due(id, rule.interval, now);
      if due {
        note := Evaluate(id, now, outcome);
        OneEvaluated(old(rules), old(next), old(past), id, now, outcome);
      }
    }

    /** One pass over the rules. */
    method RunDue(ids: seq<string>, now: int, outcome: string -> Outcome)
      requires Valid() && forall id :: id in ids ==> id in rules
      modifies this
      ensures Valid() && rules.Keys == old(rules).Keys
      ensures All() == PassedAll(old(All()), ids, now, outcome)
    {
      assert ids[0..] == ids;
      for i := 0 to |ids|
        invariant Valid() && rules.Keys == old(rules).Keys
        invariant PassedAll(All(), ids[i..], now, outcome) == PassedAll(old(All()), ids, now, outcome)
      {
        assert ids[i..][1..] == ids[i + 1..];
        var _ := RunRule(ids[i], now, outcome(ids[i]));
      }
    }
  }

  /** One rule after the other. */
  ghost function PassedAll(slots: Slots, ids: seq<string>, now: int, outcome: string -> Outcome): Slots {
    if ids == [] then slots
    else PassedAll(slots[ids[0] := Passed(slots[ids[0]], now, outcome(ids[0]))], ids[1..], now, outcome)
  }

  /** Every listed rule whose turn it is is evaluated once, and no other is. */
  lemma {:induction false} PassEvaluates(slots: Slots, ids: seq<string>, now: int, outcome: string -> Outcome, id: string)
    requires forall i, j :: 0 <= i < j < |ids| ==> ids[i] != ids[j]
    ensures PassedAll(slots, ids, now, outcome)[id] == if id in ids then Passed(slots[id], now, outcome(id)) else slots[id]
    decreases |ids|
  {
    if ids != [] {
      PassEvaluates(slots[ids[0] := Passed(slots[ids[0]], now, outcome(ids[0]))], ids[1..], now, outcome, id);
      assert ids == [ids[0]] + ids[1..] && ids[0] !in ids[1..];
    }
  }

  ghost function RunsOf(past: map<string, seq<Run>>, id: string): seq<Run> {
    if id in past then past[id] else []
  }

  /** A process that starts again forgets when its rules are due: the first pass
      evaluates an enabled rule at once, and the distance to the last evaluation is
      kept exactly when the pass itself comes an interval later. */
  method PassAfterRestart(id: string, rule: Rule, first: int, second: int, outcome: Outcome, outcome': Outcome)
    returns (scheduler: Scheduler)
    requires rule.enabled && rule.state == Unknown
    ensures scheduler.Of(id).past == [Run(first, rule.interval, outcome), Run(second, rule.interval, outcome')]
    ensures Spaced(scheduler.Of(id).past) <==> second >= first + rule.interval
  {
    var earlier := OnePass(id, rule, map[], first, outcome);
    scheduler := OnePass(id, earlier.rules[id], earlier.past, second, outcome');
    TwoRuns(Run(first, rule.interval, outcome), Run(second, rule.interval, outcome'));
  }

  /** A process that only knows this rule, and its first pass. */
  method OnePass(id: string, rule: Rule, ghost past: map<string, seq<Run>>, now: int, outcome: Outcome)
    returns (scheduler: Scheduler)
    requires rule.enabled && rule.state == StateAfter(RunsOf(past, id))
    ensures fresh(scheduler) && scheduler.Valid() && scheduler.rules.Keys == {id}
    ensures scheduler.rules[id] == rule.(state := NextState(outcome))
    ensures scheduler.Of(id).past == RunsOf(past, id) + [Run(now, rule.interval, outcome)]
  {
    scheduler := new Scheduler(map[id := rule], past);
    ghost var slot := scheduler.Of(id);
    assert slot == Slot(Option.Some(rule), None, RunsOf(past, id));
    var _ := scheduler.RunRule(id, now, outcome);
    assert scheduler.Of(id) == scheduler.All()[id] == Passed(slot, now, outcome);
  }

  lemma TwoRuns(a: Run, b: Run)
    ensures Spaced([a, b]) <==> b.at >= a.at + a.interval
  {
    var runs := [a, b];
    assert runs[0] == a && runs[1] == b;
  }
}
