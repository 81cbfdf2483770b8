/** Live tail: the hub that fans events out to subscribers, and the stream that
    joins recent history to a subscription. */
module Tail {
  import opened Model

  // ----- subsequences ---------------------------------------------------------------

  /** xs is ys with some of its elements left out. */
  ghost predicate Thinned<T>(xs: seq<T>, ys: seq<T>)
    decreases |ys|
  {
    if ys == [] then xs == []
    else
      var front, last := ys[..|ys| - 1], ys[|ys| - 1];
      Thinned(xs, front) || (xs != [] && xs[|xs| - 1] == last && Thinned(xs[..|xs| - 1], front))
  }

  lemma ThinnedSnoc<T>(xs: seq<T>, ys: seq<T>, e: T)
    requires Thinned(xs, ys)
    ensures Thinned(xs, ys + [e]) && Thinned(xs + [e], ys + [e])
  {
    assert (ys + [e])[..|ys|] == ys && (xs + [e])[..|xs|] == xs;
  }

  lemma {:induction false} ThinnedHolds<T>(xs: seq<T>, ys: seq<T>)
    requires Thinned(xs, ys)
    ensures forall x :: x in xs ==> x in ys
    decreases |ys|
  {
    if ys != [] {
      var front, last := ys[..|ys| - 1], ys[|ys| - 1];
      if Thinned(xs, front) {
        ThinnedHolds(xs, front);
      } else {
        ThinnedHolds(xs[..|xs| - 1], front);
        assert xs == xs[..|xs| - 1] + [last];
      }
    }
  }

  ghost predicate DistinctIds(es: seq<LogEvent>) {
    forall i, j :: 0 <= i < j < |es| ==> es[i].id != es[j].id
  }

  lemma {:induction false} ThinnedDistinct(xs: seq<LogEvent>, ys: seq<LogEvent>)
    requires Thinned(xs, ys) && DistinctIds(ys)
    ensures DistinctIds(xs)
    decreases |ys|
  {
    if ys != [] {
      var front, last := ys[..|ys| - 1], ys[|ys| - 1];
      if Thinned(xs, front) {
        ThinnedDistinct(xs, front);
      } else {
        var shorter := xs[..|xs| - 1];
        ThinnedDistinct(shorter, front);
        ThinnedHolds(shorter, front);
        forall i | 0 <= i < |shorter| ensures xs[i].id != last.id {
          assert shorter[i] in front;
        }
      }
    }
  }

  // ----- subscribers -------------------------------------------------------------------

  function Matching(q: LogEvent -> bool, events: seq<LogEvent>): seq<LogEvent> {
    if events == [] then []
    else
      var front, last := events[..|events| - 1], events[|events| - 1];
      Matching(q, front) + if q(last) then [last] else []
  }

  class Subscriber {
    const q: LogEvent -> bool
    const capacity: nat
    var buffer: seq<LogEvent>     // the channel
    var closed: bool              // the channel was closed
    var dropped: nat
    var evicted: bool
    ghost var offered: seq<LogEvent>    // matching events published since it subscribed
    ghost var received: seq<LogEvent>   // events its reader took

    /** Every matching event was taken, is waiting, or was dropped; and what the
        reader gets is what was published, in order, with the dropped left out. */
    ghost predicate Valid()
      reads this`buffer, this`dropped, this`offered, this`received
    {
      && 1 <= capacity && |buffer| <= capacity
      && |offered| == |received| + |buffer| + dropped
      && Thinned(received + buffer, offered)
    }

    /** It dropped as many events as the hub allows, or more. */
    predicate Late(maxDrops: int)
      reads this`dropped
    {
      maxDrops > 0 && dropped >= maxDrops
    }

    /** It was offered exactly the matching ones of these events, and lost
        nothing it had received. */
    twostate predicate Served(events: seq<LogEvent>)
      reads this`buffer, this`dropped, this`offered, this`received
    {
      Valid() && offered == old(offered) + Matching(q, events) && old(received) <= received
    }

    twostate predicate Waiting(maxDrops: int)
      reads this
    {
      Valid() && !Late(maxDrops) && !closed && offered == old(offered) && received == old(received)
    }

    /** It left by itself, or was evicted before it could. */
    predicate Ended(left: bool, late: bool)
      reads this`closed, this`evicted
    {
      closed == (left || late) && evicted == (late && !left)
    }

    constructor (q: LogEvent -> bool, buffer: int)
      ensures Valid() && !closed && !evicted && dropped == 0 && offered == received == []
      ensures this.q == q && capacity == if buffer < 1 then 1 else buffer
    {
      this.q, capacity := q, if buffer < 1 then 1 else buffer;
      this.buffer, closed, dropped, evicted, offered, received := [], false, 0, false, [], [];
    }

    /** The reader takes the next event; none is left once the channel is closed
        and drained. */
    method Receive() returns (e: Option<LogEvent>)
      requires Valid()
      modifies this`buffer, this`received
      ensures Valid()
      ensures e.Some? <==> old(buffer) != []
      ensures e.Some? ==> old(buffer) == [e.value] + buffer && received == old(received) + [e.value]
      ensures e.None? ==> buffer == old(buffer) && received == old(received)
    {
      if buffer == [] {
        return None;
      }
      assert received + buffer == received + [buffer[0]] + buffer[1..];
      e := Some(buffer[0]);
      received, buffer := received + [buffer[0]], buffer[1..];
    }

    /** Sends an event without blocking; a full channel drops it. Sending on a
        closed channel would panic. */
    method Send(e: LogEvent) returns (sent: bool)
      requires Valid() && !closed
      modifies this`buffer, this`dropped, this`offered
      ensures Valid()
      ensures offered == old(offered) + [e]
      ensures sent <==> |old(buffer)| < capacity
      ensures buffer == if sent then old(buffer) + [e] else old(buffer)
      ensures dropped == old(dropped) + if sent then 0 else 1
    {
      ThinnedSnoc(received + buffer, offered, e);
      offered := offered + [e];
      sent := |buffer| < capacity;
      if sent {
        assert received + buffer + [e] == received + (buffer + [e]);
        buffer := buffer + [e];
      } else {
        dropped := dropped + 1;
      }
    }

    /** The reader, which runs beside the publisher, takes any number of events. */
    method ReaderTakes()
      requires Valid()
      modifies this`buffer, this`received
      ensures Valid() && old(received) <= received
    {
      var n: nat := *;
      while n > 0
        invariant Valid() && old(received) <= received
      {
        var _ := Receive();
        n := n - 1;
      }
    }

    /** Offers every matching event in turn, while the reader takes what it
        likes; reports whether the drops reached the limit. */
    method Offer(events: seq<LogEvent>, maxDrops: int) returns (late: bool)
      requires Valid() && !closed
      modifies this`buffer, this`dropped, this`offered, this`received
      ensures Served(events)
      ensures late <==> !old(Late(maxDrops)) && Late(maxDrops)
    {
      late := false;
      for i := 0 to |events|
        invariant Valid()
        invariant offered == old(offered) + Matching(q, events[..i])
        invariant old(received) <= received && old(dropped) <= dropped
        invariant late <==> maxDrops > 0 && old(dropped) < maxDrops <= dropped
      {
        var e := events[i];
        assert events[..i + 1][..i] == events[..i];
        ReaderTakes();
        if !q(e) {
          continue;
        }
        var sent := Send(e);
        if !sent && maxDrops > 0 && dropped == maxDrops {
          late := true;
        }
      }
      assert events[..|events|] == events;
    }
  }

  // ----- the hub ------------------------------------------------------------------------

  class Hub {
    var subs: set<Subscriber>
    const maxDrops: int
    var evictedTotal: nat

    /** The channel of a registered subscriber is open. */
    ghost predicate Open()
      reads this, subs
    {
      forall s :: s in subs ==> s.Valid() && !s.closed && !s.evicted
    }

    /** Outside Publish, none of them has dropped its limit. */
    ghost predicate Valid()
      reads this, subs
    {
      Open() && forall s :: s in subs ==> !s.Late(maxDrops)
    }

    constructor (maxDrops: int)
      ensures Valid() && subs == {} && this.maxDrops == maxDrops && evictedTotal == 0
    {
      this.subs, this.maxDrops, evictedTotal := {}, maxDrops, 0;
    }

    method Subscribe(q: LogEvent -> bool, buffer: int) returns (s: Subscriber)
      requires Valid()
      modifies this`subs
      ensures Valid() && fresh(s) && subs == old(subs) + {s}
      ensures s.q == q && s.offered == s.received == []
    {
      s := new Subscriber(q, buffer);
      subs := subs + {s};
    }

    /** Unregisters a subscriber and closes its channel, which happens once. */
    method Close(s: Subscriber)
      requires Open() && s.Valid() && (s !in subs ==> s.closed)
      modifies this`subs, s`closed
      ensures Open() && (old(Valid()) ==> Valid()) && s.closed && subs == old(subs) - {s}
    {
      if s in subs {
        subs := subs - {s};
        s.closed := true;
      }
    }

    /** The handlers of these subscribers end. */
    method CloseAll(leaving: set<Subscriber>)
      requires Open() && leaving <= subs
      modifies this`subs, leaving`closed
      ensures Open() && subs == old(subs) - leaving
      ensures forall s :: s in leaving ==> s.closed
    {
      var rest := leaving;
      while rest != {}
        invariant rest <= leaving && subs == old(subs) - (leaving - rest) && Open()
        invariant forall s :: s in leaving - rest ==> s.closed
        decreases |rest|
      {
        var s :| s in rest;
        Close(s);
        rest := rest - {s};
      }
    }

    method Evict(s: Subscriber)
      requires s in subs ==> !s.closed
      modifies this`subs, this`evictedTotal, ({s} * subs)`closed, ({s} * subs)`evicted
      ensures subs == old(subs) - {s} && (s in old(subs) ==> s.closed && s.evicted)
      ensures evictedTotal == old(evictedTotal) + if s in old(subs) then 1 else 0
    {
      if s in subs {
        s.evicted := true;
        subs := subs - {s};
        s.closed := true;
        evictedTotal := evictedTotal + 1;
      }
    }

    /** Delivers events to every registered subscriber; those that reach their
        limit of drops are evicted, and only those. Some may leave once the events
        are offered: they are not evicted any more. */
    method Publish(events: seq<LogEvent>, leaving: set<Subscriber>) returns (ghost late: set<Subscriber>)
      requires Valid() && leaving <= subs
      modifies this`subs, this`evictedTotal, subs
      ensures Valid() && subs == old(subs) - leaving - late
      ensures late <= old(subs) && forall s :: s in old(subs) ==> (s in late <==> s.Late(maxDrops))
      ensures forall s :: s in old(subs) ==> s.Served(events) && s.Ended(s in leaving, s in late)
      ensures evictedTotal == old(evictedTotal) + |late - leaving|
    {
      var toEvict := OfferAll(events);
      Remove(leaving, toEvict);
      late := toEvict;
    }

    method Remove(leaving: set<Subscriber>, toEvict: set<Subscriber>)
      requires Open() && leaving <= subs && toEvict <= subs
      modifies this`subs, this`evictedTotal, subs`closed, subs`evicted
      ensures subs == old(subs) - leaving - toEvict
      ensures forall s :: s in old(subs) ==> s.Ended(s in leaving, s in toEvict)
      ensures evictedTotal == old(evictedTotal) + |toEvict - leaving|
    {
      CloseAll(leaving);
      EvictAll(toEvict);
      assert toEvict * (old(subs) - leaving) == toEvict - leaving;
    }

    /** The part of Publish under the read lock: who has to go. */
    method OfferAll(events: seq<LogEvent>) returns (toEvict: set<Subscriber>)
      requires Valid()
      modifies subs`buffer, subs`dropped, subs`offered, subs`received
      ensures toEvict <= subs && forall s :: s in subs ==> (s in toEvict <==> s.Late(maxDrops))
      ensures forall s :: s in subs ==> s.Served(events)
    {
      toEvict := {};
      var todo := subs;
      while todo != {}
        invariant todo <= subs && toEvict <= subs && toEvict !! todo
        invariant forall s :: s in todo ==> s.Waiting(maxDrops)
        invariant forall s :: s in subs && s !in todo ==> s.Served(events) && (s in toEvict <==> s.Late(maxDrops))
        decreases |todo|
      {
        var s :| s in todo;
        var late := s.Offer(events, maxDrops);
        todo := todo - {s};
        if late {
          toEvict := toEvict + {s};
        }
      }
    }

    /** Those that are still registered are evicted, the others left alone. */
    method EvictAll(toEvict: set<Subscriber>)
      requires forall s :: s in subs ==> !s.closed
      modifies this`subs, this`evictedTotal, (toEvict * subs)`closed, (toEvict * subs)`evicted
      ensures subs == old(subs) - toEvict
      ensures forall s :: s in toEvict && s in old(subs) ==> s.closed && s.evicted
      ensures evictedTotal == old(evictedTotal) + |toEvict * old(subs)|
    {
      var done: set<Subscriber> := {};
      while done != toEvict
        invariant done <= toEvict && subs == old(subs) - done && forall s :: s in subs ==> !s.closed
        invariant forall s :: s in done && s in old(subs) ==> s.closed && s.evicted
        invariant evictedTotal == old(evictedTotal) + |done * old(subs)|
        decreases |toEvict - done|
      {
        var s :| s in toEvict - done;
        OneMore(done, s, old(subs));
        Evict(s);
        done := done + {s};
      }
    }
  }

  lemma OneMore<T>(done: set<T>, s: T, all: set<T>)
    requires s !in done
    ensures |(done + {s}) * all| == |done * all| + if s in all then 1 else 0
  {
    assert (done + {s}) * all == done * all + {s} * all;
    assert s in all ==> {s} * all == {s};
    assert s !in all ==> {s} * all == {};
  }

  // ----- the stream ------------------------------------------------------------------------

  predicate AlreadySeen(lastSeen: string, id: string) {
    lastSeen != "" && !Less(lastSeen, id)
  }

  /** History comes newest first and is written oldest first, without what the
      client has seen. */
  function Backfilled(history: seq<LogEvent>, lastSeen: string): seq<LogEvent> {
    if history == [] then []
    else Backfilled(history[1..], lastSeen) + if AlreadySeen(lastSeen, history[0].id) then [] else [history[0]]
  }

  /** Then the events of the subscription, each replayed ID left out once. */
  function Live(replayed: set<string>, channel: seq<LogEvent>): seq<LogEvent>
    decreases |channel|
  {
    if channel == [] then []
    else if channel[0].id in replayed then Live(replayed - {channel[0].id}, channel[1..])
    else [channel[0]] + Live(replayed, channel[1..])
  }

  function Ids(events: seq<LogEvent>): set<string> {
    set e | e in events :: e.id
  }

  function Stream(history: seq<LogEvent>, lastSeen: string, channel: seq<LogEvent>): seq<LogEvent> {
    Backfilled(history, lastSeen) + Live(Ids(history), channel)
  }

  function Count(events: seq<LogEvent>, id: string): nat {
    if events == [] then 0 else (if events[0].id == id then 1 else 0) + Count(events[1..], id)
  }

  lemma {:induction false} CountConcat(xs: seq<LogEvent>, ys: seq<LogEvent>, id: string)
    ensures Count(xs + ys, id) == Count(xs, id) + Count(ys, id)
  {
    if xs == [] {
      assert xs + ys == ys;
    } else {
      assert (xs + ys)[1..] == xs[1..] + ys;
      CountConcat(xs[1..], ys, id);
    }
  }

  lemma {:induction false} CountIsMembership(events: seq<LogEvent>, id: string)
    ensures Count(events, id) > 0 <==> id in Ids(events)
    ensures DistinctIds(events) ==> Count(events, id) <= 1
  {
    if events != [] {
      var rest := events[1..];
      CountIsMembership(rest, id);
      assert events == [events[0]] + rest;
      assert Ids(events) == Ids(rest) + {events[0].id};
      if DistinctIds(events) {
        assert forall k :: 0 <= k < |rest| ==> rest[k] == events[k + 1] && rest[k].id != events[0].id;
      }
    }
  }

  lemma {:induction false} BackfilledCount(history: seq<LogEvent>, lastSeen: string, id: string)
    ensures Count(Backfilled(history, lastSeen), id) == if AlreadySeen(lastSeen, id) then 0 else Count(history, id)
  {
    if history != [] {
      BackfilledCount(history[1..], lastSeen, id);
      CountConcat(Backfilled(history[1..], lastSeen), if AlreadySeen(lastSeen, history[0].id) then [] else [history[0]], id);
    }
  }

  lemma {:induction false} LiveCount(replayed: set<string>, channel: seq<LogEvent>, id: string)
    ensures Count(Live(replayed, channel), id)
            == if id in replayed && Count(channel, id) > 0 then Count(channel, id) - 1 else Count(channel, id)
    decreases |channel|
  {
    if channel != [] {
      var c := channel[0];
      if c.id in replayed {
        LiveCount(replayed - {c.id}, channel[1..], id);
      } else {
        LiveCount(replayed, channel[1..], id);
        assert ([c] + Live(replayed, channel[1..]))[1..] == Live(replayed, channel[1..]);
      }
    }
  }

  /** How often a connection writes an ID, for every history and every sequence
      of events received: once if history has it and the client has not, and as
      often as the channel has it, less the copy that history already gave. */
  lemma StreamCounts(history: seq<LogEvent>, lastSeen: string, channel: seq<LogEvent>, id: string)
    requires DistinctIds(history)
    ensures var (before, times) := (id in Ids(history), Count(channel, id));
            Count(Stream(history, lastSeen, channel), id)
            == (if before && !AlreadySeen(lastSeen, id) then 1 else 0) + (if before && times > 0 then times - 1 else times)
  {
    CountConcat(Backfilled(history, lastSeen), Live(Ids(history), channel), id);
    BackfilledCount(history, lastSeen, id);
    LiveCount(Ids(history), channel, id);
    CountIsMembership(history, id);
  }

  /** When each ID is published once, a connection writes each event at most
      once, and writes exactly the history that is new to the client and the
      channel events that are not in history. */
  lemma EachEventOnce(history: seq<LogEvent>, lastSeen: string, offered: seq<LogEvent>, received: seq<LogEvent>, id: string)
    requires DistinctIds(history) && DistinctIds(offered) && Thinned(received, offered)
    ensures var n := Count(Stream(history, lastSeen, received), id);
            && n <= 1
            && (n == 1 <==> if id in Ids(history) then !AlreadySeen(lastSeen, id) else id in Ids(received))
  {
    ThinnedDistinct(received, offered);
    StreamCounts(history, lastSeen, received, id);
    CountIsMembership(received, id);
  }

  /** The handler of one connection: reaches says which writes still reach the
      client. Without history it goes live at once. */
  method Serve(history: Option<seq<LogEvent>>, lastSeen: string, channel: seq<LogEvent>, reaches: nat -> bool)
    returns (out: seq<LogEvent>, alive: bool)
    ensures var all := Stream(history.UnwrapOr([]), lastSeen, channel);
            out <= all && (alive ==> out == all)
    ensures (forall k :: reaches(k)) ==> alive
  {
    out, alive := [], true;
    var replayed: set<string> := {};
    ghost var past := history.UnwrapOr([]);
    ghost var live := Live(Ids(past), channel);
    if history.Some? {
      var events := history.value;
      out, replayed, alive := WriteHistory(events, lastSeen, reaches);
      if !alive {
        return;
      }
    } else {
      assert Backfilled(past, lastSeen) == [] && Ids(past) == {};
    }
    ghost var head := out;
    assert head == Backfilled(past, lastSeen) && replayed == Ids(past);
    assert channel[0..] == channel;
    for i := 0 to |channel|
      invariant head + live == out + Live(replayed, channel[i..])
    {
      var e := channel[i];
      assert channel[i..][1..] == channel[i + 1..];
      if e.id in replayed {
        replayed := replayed - {e.id};
        continue;
      }
      if !reaches(|out|) {
        return out, false;
      }
      assert out + Live(replayed, channel[i..]) == (out + [e]) + Live(replayed, channel[i + 1..]);
      out := out + [e];
    }
  }

  method WriteHistory(events: seq<LogEvent>, lastSeen: string, reaches: nat -> bool)
    returns (out: seq<LogEvent>, replayed: set<string>, alive: bool)
    ensures var all := Backfilled(events, lastSeen);
            out <= all && (alive ==> out == all && replayed == Ids(events))
    ensures (forall k :: reaches(k)) ==> alive
  {
    out, replayed, alive := [], {}, true;
    var i: nat := |events|;
    while i > 0
      invariant i <= |events|
      invariant out == Backfilled(events[i..], lastSeen) && out <= Backfilled(events, lastSeen)
      invariant replayed == Ids(events[i..])
    {
      i := i - 1;
      var e := events[i];
      BackfilledNext(events, i, lastSeen);
      if AlreadySeen(lastSeen, e.id) {
        replayed := replayed + {e.id};
        continue;
      }
      if !reaches(|out|) {
        return out, replayed, false;
      }
      out := out + [e];
      replayed := replayed + {e.id};
    }
    assert events[0..] == events;
  }

  lemma BackfilledNext(events: seq<LogEvent>, i: nat, lastSeen: string)
    requires i < |events|
    ensures Backfilled(events[i..], lastSeen)
            == Backfilled(events[i + 1..], lastSeen) + if AlreadySeen(lastSeen, events[i].id) then [] else [events[i]]
    ensures Backfilled(events[i..], lastSeen) <= Backfilled(events, lastSeen)
    ensures Ids(events[i..]) == Ids(events[i + 1..]) + {events[i].id}
  {
    BackfilledGrows(events, i, lastSeen);
    assert events[i..] == [events[i]] + events[i + 1..];
    assert events[i..][1..] == events[i + 1..];
  }

  lemma {:induction false} BackfilledGrows(events: seq<LogEvent>, i: nat, lastSeen: string)
    requires i <= |events|
    ensures Backfilled(events[i..], lastSeen) <= Backfilled(events, lastSeen)
  {
    if i > 0 {
      BackfilledGrows(events[1..], i - 1, lastSeen);
      assert events[1..][i - 1..] == events[i..];
    } else {
      assert events[0..] == events;
    }
  }
}
