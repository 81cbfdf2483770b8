/** Admission control: a token bucket and daily quotas for every ingest key. */
module Admission {
  /** Times are seconds. */
  datatype Limits = Limits(ratePerSec: real, burst: int, dailyEvents: int, dailyBytes: int) {

    predicate Enabled() {
      ratePerSec > 0.0 || dailyEvents > 0 || dailyBytes > 0
    }

    /** The capacity of a bucket. */
    function Burst(): (b: real)
      ensures b >= 1.0
    {
      if burst >= 1 then burst as real else if ratePerSec > 1.0 then ratePerSec else 1.0
    }
  }

  datatype KeyState = KeyState(tokens: real, last: real, day: int, events: int, bytes: int)

  type Keys = map<string, KeyState>

  datatype Decision = Allowed | Rate | BytesQuota | EventsQuota

  function Day(now: real): int {
    (now / 86400.0).Floor
  }

  function Gained(limits: Limits, elapsed: real): real {
    elapsed * limits.ratePerSec
  }

  /** The tokens of a bucket at a later time. */
  function Refilled(limits: Limits, st: KeyState, now: real): real {
    var tokens := st.tokens + Gained(limits, now - st.last);
    if tokens > limits.Burst() then limits.Burst() else tokens
  }

  /** The state of a key as stateLocked leaves it. */
  function Touched(limits: Limits, keys: Keys, key: string, now: real): KeyState {
    var st := if key in keys then keys[key] else KeyState(limits.Burst(), now, Day(now), 0, 0);
    var st' := if limits.ratePerSec > 0.0 && now - st.last > 0.0
               then st.(tokens := Refilled(limits, st, now), last := now) else st;
    if st'.day != Day(now) then st'.(day := Day(now), events := 0, bytes := 0) else st'
  }

  function Decide(limits: Limits, st: KeyState, bytes: int): Decision {
    if limits.ratePerSec > 0.0 && st.tokens < 1.0 then Rate
    else if limits.dailyBytes > 0 && st.bytes + bytes > limits.dailyBytes then BytesQuota
    else if limits.dailyEvents > 0 && st.events >= limits.dailyEvents then EventsQuota
    else Allowed
  }

  /** A call to the limiter, at a time its clock gave. */
  datatype Call =
    | Allow(key: string, bytes: int, now: real)
    | Record(key: string, events: int, bytes: int, now: real)

  /** The keys after a call, and whether it let a request through. */
  function Step(limits: Limits, keys: Keys, call: Call): (Keys, bool) {
    if !limits.Enabled() then (keys, call.Allow?)
    else
      var st := Touched(limits, keys, call.key, call.now);
      match call
      case Allow(key, bytes, _) =>
        if Decide(limits, st, bytes) != Allowed then (keys[key := st], false)
        else (keys[key := if limits.ratePerSec > 0.0 then st.(tokens := st.tokens - 1.0) else st], true)
      case Record(key, events, bytes, _) =>
        (keys[key := st.(events := st.events + events, bytes := st.bytes + bytes)], false)
  }

  // ----- the limiter -----------------------------------------------------------------

  class Limiter {
    var limits: Limits
    var keys: Keys

    constructor (limits: Limits)
      ensures this.limits == limits && keys == map[]
    {
      this.limits, keys := limits, map[];
    }

    /** Replaces the limits; buckets and counters stay. */
    method SetLimits(limits: Limits)
      modifies this`limits
      ensures this.limits == limits
    {
      this.limits := limits;
    }

    method StateLocked(key: string, now: real) returns (st: KeyState)
      modifies this`keys
      ensures st == Touched(limits, old(keys), key, now) && keys == old(keys)[key := st]
    {
      if key !in keys {
        keys := keys[key := KeyState(limits.Burst(), now, Day(now), 0, 0)];
      }
      st := keys[key];
      if limits.ratePerSec > 0.0 {
        var elapsed := now - st.last;
        if elapsed > 0.0 {
          st := st.(tokens := st.tokens + elapsed * limits.ratePerSec);
          if st.tokens > limits.Burst() {
            st := st.(tokens := limits.Burst());
          }
          st := st.(last := now);
        }
      }
      if st.day != Day(now) {
        st := st.(day := Day(now), events := 0, bytes := 0);
      }
      keys := keys[key := st];
    }

    method Admit(key: string, bytes: int, now: real) returns (decision: Decision)
      modifies this`keys
      ensures Step(limits, old(keys), Allow(key, bytes, now)) == (keys, decision.Allowed?)
      ensures limits.Enabled() ==> decision == Decide(limits, Touched(limits, old(keys), key, now), bytes)
    {
      if !limits.Enabled() {
        return Allowed;
      }
      var st := StateLocked(key, now);
      if limits.ratePerSec > 0.0 && st.tokens < 1.0 {
        return Rate;
      }
      if limits.dailyBytes > 0 && st.bytes + bytes > limits.dailyBytes {
        return BytesQuota;
      }
      if limits.dailyEvents > 0 && st.events >= limits.dailyEvents {
        return EventsQuota;
      }
      if limits.ratePerSec > 0.0 {
        assert keys[key := st.(tokens := st.tokens - 1.0)] == old(keys)[key := st.(tokens := st.tokens - 1.0)];
        keys := keys[key := st.(tokens := st.tokens - 1.0)];
      }
      return Allowed;
    }

    method Count(key: string, events: int, bytes: int, now: real)
      modifies this`keys
      ensures keys == Step(limits, old(keys), Record(key, events, bytes, now)).0
    {
      if !limits.Enabled() {
        return;
      }
      var st := StateLocked(key, now);
      keys := keys[key := st.(events := st.events + events, bytes := st.bytes + bytes)];
    }
  }

  // ----- runs of calls -----------------------------------------------------------------

  function After(limits: Limits, keys: Keys, calls: seq<Call>): Keys
    decreases |calls|
  {
    if calls == [] then keys else After(limits, Step(limits, keys, calls[0]).0, calls[1..])
  }

  /** The answers to the calls about one key, in order. */
  function Answers(limits: Limits, keys: Keys, calls: seq<Call>, key: string): seq<bool>
    decreases |calls|
  {
    if calls == [] then []
    else
      var (keys', answer) := Step(limits, keys, calls[0]);
      (if calls[0].key == key then [answer] else []) + Answers(limits, keys', calls[1..], key)
  }

  /** How many requests of a key a run of calls lets through. */
  function Granted(limits: Limits, keys: Keys, calls: seq<Call>, key: string): nat
    decreases |calls|
  {
    if calls == [] then 0
    else
      var (keys', answer) := Step(limits, keys, calls[0]);
      Spent(calls[0], key, answer) + Granted(limits, keys', calls[1..], key)
  }

  /** The clock does not run backwards, and stays between two instants. */
  ghost predicate Timed(calls: seq<Call>, from: real, to: real)
    decreases |calls|
  {
    from <= to && (calls != [] ==> from <= calls[0].now && Timed(calls[1..], calls[0].now, to))
  }

  /** No bucket holds more than its capacity, nor less than nothing, and none was
      filled later than now. */
  ghost predicate Fine(limits: Limits, keys: Keys, now: real) {
    forall k :: k in keys ==> FineState(limits, keys[k], now)
  }

  ghost predicate FineState(limits: Limits, st: KeyState, now: real) {
    0.0 <= st.tokens <= limits.Burst() && st.last <= now
  }

  lemma TouchedIsFine(limits: Limits, keys: Keys, key: string, now: real, later: real)
    requires limits.ratePerSec > 0.0 && Fine(limits, keys, now) && now <= later
    ensures FineState(limits, Touched(limits, keys, key, later), later)
    ensures Touched(limits, keys, key, later).last == later
    ensures Touched(limits, keys, key, later).tokens == Level(limits, keys, key, later)
  {
    if key in keys {
      assert FineState(limits, keys[key], now);
      RefilledIsPositive(limits, keys[key], later);
      NoTime(limits, keys[key]);
    }
  }

  lemma RefilledIsPositive(limits: Limits, st: KeyState, now: real)
    requires limits.ratePerSec > 0.0 && st.tokens >= 0.0 && st.last <= now
    ensures 0.0 <= Refilled(limits, st, now) <= limits.Burst()
  {
    GainsMore(limits, now - st.last);
  }

  lemma GainsMore(limits: Limits, elapsed: real)
    requires limits.ratePerSec > 0.0 && elapsed >= 0.0
    ensures Gained(limits, elapsed) >= 0.0
  {
    Gains(elapsed, limits.ratePerSec);
  }

  /** After SetLimits a bucket holds at most the new capacity as soon as time has
      passed since it was filled, and until then exactly if it did before. */
  lemma NewLimitsHold(limits: Limits, keys: Keys, key: string, now: real)
    requires limits.ratePerSec > 0.0 && key in keys && keys[key].tokens >= 0.0 && keys[key].last <= now
    ensures FineState(limits, Touched(limits, keys, key, now), now)
            <==> now > keys[key].last || keys[key].tokens <= limits.Burst()
  {
    RefilledIsPositive(limits, keys[key], now);
  }

  lemma NoTime(limits: Limits, st: KeyState)
    ensures Refilled(limits, st, st.last) == if st.tokens > limits.Burst() then limits.Burst() else st.tokens
  {
    assert Gained(limits, st.last - st.last) == 0.0;
  }

  lemma StepIsFine(limits: Limits, keys: Keys, call: Call, now: real)
    requires limits.ratePerSec > 0.0 && Fine(limits, keys, now) && now <= call.now
    ensures Fine(limits, Step(limits, keys, call).0, call.now)
  {
    TouchedIsFine(limits, keys, call.key, now, call.now);
  }

  lemma Gains(elapsed: real, rate: real)
    requires elapsed >= 0.0 && rate > 0.0
    ensures elapsed * rate >= 0.0
  {
  }

  lemma {:induction false} AfterIsFine(limits: Limits, keys: Keys, calls: seq<Call>, from: real, to: real)
    requires limits.ratePerSec > 0.0 && Fine(limits, keys, from) && Timed(calls, from, to)
    ensures Fine(limits, After(limits, keys, calls), to)
    decreases |calls|
  {
    if calls != [] {
      StepIsFine(limits, keys, calls[0], from);
      AfterIsFine(limits, Step(limits, keys, calls[0]).0, calls[1..], calls[0].now, to);
    }
  }

  // ----- the bound -----------------------------------------------------------------------

  /** What a key could spend at a time. */
  function Level(limits: Limits, keys: Keys, key: string, now: real): real {
    if key in keys then Refilled(limits, keys[key], now) else limits.Burst()
  }

  /** n is at most the level and what the rate adds between two instants. */
  ghost predicate Within(limits: Limits, n: real, level: real, from: real, to: real) {
    n <= level + (to - from) * limits.ratePerSec
  }

  lemma Elapse(rate: real, a: real, b: real, c: real)
    ensures (c - a) * rate == (b - a) * rate + (c - b) * rate
  {
  }

  /** The level rises no faster than the rate. */
  lemma LevelRises(limits: Limits, keys: Keys, key: string, from: real, now: real)
    requires limits.ratePerSec > 0.0 && from <= now
    ensures Within(limits, Level(limits, keys, key, now), Level(limits, keys, key, from), from, now)
    ensures Level(limits, keys, key, now) <= limits.Burst()
  {
    Gains(now - from, limits.ratePerSec);
    if key in keys {
      Elapse(limits.ratePerSec, keys[key].last, from, now);
    }
  }

  /** A call about the key spends a token exactly when it lets a request through. */
  lemma StepSpends(limits: Limits, keys: Keys, call: Call, now: real)
    requires limits.ratePerSec > 0.0 && Fine(limits, keys, now) && now <= call.now
    ensures var (keys', answer) := Step(limits, keys, call);
            Level(limits, keys', call.key, call.now)
            == Level(limits, keys, call.key, call.now) - if answer then 1.0 else 0.0
  {
    TouchedIsFine(limits, keys, call.key, now, call.now);
    NoTime(limits, Step(limits, keys, call).0[call.key]);
  }

  lemma OtherLevel(limits: Limits, keys: Keys, call: Call, key: string, now: real)
    requires call.key != key
    ensures Level(limits, Step(limits, keys, call).0, key, now) == Level(limits, keys, key, now)
  {
  }

  function Spent(call: Call, key: string, answer: bool): nat {
    if call.key == key && answer then 1 else 0
  }

  /** What a call spends and what it leaves are within what the key could have. */
  lemma StepWithin(limits: Limits, keys: Keys, call: Call, key: string, from: real)
    requires limits.ratePerSec > 0.0 && Fine(limits, keys, from) && from <= call.now
    ensures var (keys', answer) := Step(limits, keys, call);
            Within(limits, Level(limits, keys', key, call.now) + Spent(call, key, answer) as real,
                   Level(limits, keys, key, from), from, call.now)
  {
    LevelRises(limits, keys, key, from, call.now);
    if call.key == key {
      StepSpends(limits, keys, call, from);
    } else {
      OtherLevel(limits, keys, call, key, call.now);
    }
  }

  lemma Combine(limits: Limits, spent: nat, after: real, earlier: real, rest: nat, from: real, now: real, to: real)
    requires Within(limits, after + spent as real, earlier, from, now) && Within(limits, rest as real, after, now, to)
    ensures Within(limits, (spent + rest) as real, earlier, from, to)
  {
    Elapse(limits.ratePerSec, from, now, to);
  }

  lemma {:induction false} GrantedBound(limits: Limits, keys: Keys, calls: seq<Call>, key: string, from: real, to: real)
    requires limits.ratePerSec > 0.0 && Fine(limits, keys, from) && Timed(calls, from, to)
    ensures Within(limits, Granted(limits, keys, calls, key) as real, Level(limits, keys, key, from), from, to)
    decreases |calls|
  {
    if calls == [] {
      LevelIsPositive(limits, keys, key, from);
      Gains(to - from, limits.ratePerSec);
    } else {
      var call, rest := calls[0], calls[1..];
      var (keys', answer) := Step(limits, keys, call);
      StepIsFine(limits, keys, call, from);
      StepWithin(limits, keys, call, key, from);
      GrantedBound(limits, keys', rest, key, call.now, to);
      Combine(limits, Spent(call, key, answer), Level(limits, keys', key, call.now), Level(limits, keys, key, from),
              Granted(limits, keys', rest, key), from, call.now, to);
    }
  }

  lemma LevelIsPositive(limits: Limits, keys: Keys, key: string, now: real)
    requires limits.ratePerSec > 0.0 && Fine(limits, keys, now)
    ensures Level(limits, keys, key, now) >= 0.0
  {
    if key in keys {
      assert FineState(limits, keys[key], now);
      RefilledIsPositive(limits, keys[key], now);
    }
  }

  /** However calls about any keys interleave, the requests of one key let through
      between two instants are at most the burst and what the rate adds. */
  lemma TokenBucketBound(limits: Limits, before: seq<Call>, window: seq<Call>, key: string,
                         start: real, from: real, to: real)
    requires limits.ratePerSec > 0.0
    requires Timed(before, start, from) && Timed(window, from, to)
    ensures Within(limits, Granted(limits, After(limits, map[], before), window, key) as real, limits.Burst(), from, to)
  {
    var keys := After(limits, map[], before);
    AfterIsFine(limits, map[], before, start, from);
    GrantedBound(limits, keys, window, key, from, to);
    LevelRises(limits, keys, key, from, from);
  }

  // ----- one key does not disturb another ----------------------------------------------------

  function Only(calls: seq<Call>, key: string): seq<Call> {
    if calls == [] then []
    else (if calls[0].key == key then [calls[0]] else []) + Only(calls[1..], key)
  }

  ghost predicate SameKey(a: Keys, b: Keys, key: string) {
    (key in a <==> key in b) && (key in a ==> a[key] == b[key])
  }

  /** The answers a key gets are those it would get alone. */
  lemma {:induction false} KeysAreIndependent(limits: Limits, a: Keys, b: Keys, calls: seq<Call>, key: string)
    requires SameKey(a, b, key)
    ensures Answers(limits, a, calls, key) == Answers(limits, b, Only(calls, key), key)
    decreases |calls|
  {
    if calls != [] {
      var call := calls[0];
      var a' := Step(limits, a, call).0;
      if call.key == key {
        KeysAreIndependent(limits, a', Step(limits, b, call).0, calls[1..], key);
        assert Only(calls, key) == [call] + Only(calls[1..], key);
      } else {
        KeysAreIndependent(limits, a', b, calls[1..], key);
        assert Only(calls, key) == Only(calls[1..], key);
      }
    }
  }
}
