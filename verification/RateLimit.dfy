/** What the log of any interleaving says about how often a client was selected. */
module RateLimit {
  import opened Arithmetic
  import opened BalancerSpec
  import opened Interleaving
  import CallWait

  /** Whether `o` selects client i at some time in [from, to). */
  predicate Hits(o: Observation, i: nat, from: int, to: int) {
    o.Selected? && o.idx == i && from <= o.at < to
  }

  /** Selections of client i in [from, to). */
  function Count(log: seq<Observation>, i: nat, from: int, to: int): nat {
    if log == [] then 0
    else
      var last := |log| - 1;
      Count(log[..last], i, from, to) + if Hits(log[last], i, from, to) then 1 else 0
  }

  /** Selections of client i since its last refill, or since the start. */
  function SinceRefill(log: seq<Observation>, i: nat): nat {
    if log == [] then 0
    else
      var last := |log| - 1;
      match log[last]
      case Refilled(j, _) => if j == i then 0 else SinceRefill(log[..last], i)
      case Selected(j, _) => SinceRefill(log[..last], i) + if j == i then 1 else 0
      case Notified(_, _) => SinceRefill(log[..last], i)
  }

  predicate EverRefilled(log: seq<Observation>, i: nat) {
    exists k :: 0 <= k < |log| && log[k].Refilled? && log[k].idx == i
  }

  lemma LastOf(log: seq<Observation>, o: Observation)
    ensures log + [o] != [] && (log + [o])[..|log + [o]| - 1] == log
  {
  }

  // Tokens are conserved

  /** The tokens the last refill gave client i; before any refill, those it was created with. */
  ghost function Granted(s: State, i: nat): int
    requires i < |s.limits|
  {
    if EverRefilled(s.log, i) then EffectiveLimit(s.limits[i]) else s.limits[i]
  }

  /** Every bucket holds exactly what was granted less what was selected since. */
  ghost predicate Balanced(s: State) {
    |s.buckets| == |s.limits| &&
    forall i: nat :: i < |s.limits| ==> s.buckets[i] == Granted(s, i) - SinceRefill(s.log, i)
  }

  lemma EverRefilledAppend(log: seq<Observation>, o: Observation, i: nat)
    ensures EverRefilled(log + [o], i) <==> EverRefilled(log, i) || (o.Refilled? && o.idx == i)
  {
    var after := log + [o];
    if EverRefilled(log, i) {
      var k :| 0 <= k < |log| && log[k].Refilled? && log[k].idx == i;
      assert after[k] == log[k];
    }
    if o.Refilled? && o.idx == i {
      assert after[|log|] == o;
    }
  }

  /** The bucket of client i once `o` has happened. */
  ghost function BucketAfter(s: State, o: Observation, i: nat): int
    requires i < |s.limits| == |s.buckets|
  {
    if o.Notified? || o.idx != i then s.buckets[i]
    else if o.Refilled? then EffectiveLimit(s.limits[i])
    else s.buckets[i] - 1
  }

  lemma BalancedAppend(s: State, t: State, o: Observation)
    requires Balanced(s) && t.log == s.log + [o] && t.limits == s.limits
    requires |t.buckets| == |s.limits|
    requires forall i: nat :: i < |s.limits| ==> t.buckets[i] == BucketAfter(s, o, i)
    ensures Balanced(t)
  {
    LastOf(s.log, o);
    forall i: nat | i < |t.limits|
      ensures t.buckets[i] == Granted(t, i) - SinceRefill(t.log, i)
    {
      EverRefilledAppend(s.log, o, i);
    }
  }

  lemma {:induction false} BalancedRefill(s: State, now: int, n: nat)
    requires WellFormed(s) && Balanced(s) && n <= |s.connected|
    ensures Balanced(RefillFirst(s, now, n))
  {
    if n == 0 {
      assert RefillFirst(s, now, 0).log == s.log;
    } else {
      BalancedRefill(s, now, n - 1);
      RefillStep(s, now, n - 1);
      var i := s.connected[n - 1];
      BalancedAppend(RefillFirst(s, now, n - 1), RefillFirst(s, now, n), Refilled(i, now));
    }
  }

  lemma BalancedSelect(s: State, now: int)
    requires WellFormed(s) && Balanced(s)
    ensures Balanced(Select(s, now).0)
  {
    var ready := Ready(s, now);
    assert Balanced(ready) by {
      var reset := if s.index >= |s.connected| then s.(index := 0) else s;
      BalancedRefill(reset, now, |reset.connected|);
    }
    var p := Choice(Levels(ready), ready.index);
    if p.Some? {
      BalancedAppend(ready, Take(ready, p.value, now), Selected(ready.connected[p.value], now));
    }
  }

  lemma BalancedStep(w: World, m: Move)
    requires Safe(w) && Balanced(w.core)
    ensures Balanced(Step(w, m).core)
  {
    match m
    case Selecting(now) =>
      BalancedSelect(w.core, now);
    case Dropping(i) =>
      if i in w.core.connected {
        BalancedAppend(w.core, Step(w, m).core, Notified(i, false));
      }
    case Tick(up) =>
      if w.phase.Dialling? && up {
        BalancedAppend(w.core, Step(w, m).core, Notified(w.phase.pos, true));
      }
  }

  lemma {:induction false} BalancedMoves(w: World, ms: seq<Move>)
    requires Safe(w) && Balanced(w.core)
    ensures Balanced(Moves(w, ms).core)
    decreases |ms|
  {
    if ms != [] {
      BalancedStep(w, ms[0]);
      BalancedMoves(Step(w, ms[0]), ms[1..]);
    }
  }

  /**
  In every interleaving and with any clock, a client with a limit is selected at most that often
  between refills: its bucket and its selections since the last refill make up the limit.
  */
  lemma TokensAreConserved(limits: seq<uint32>, now: int, ms: seq<Move>, i: nat)
    requires i < |limits|
    ensures var s := Moves(Launch(limits, now), ms).core;
      && s.buckets[i] + SinceRefill(s.log, i) == Granted(s, i)
      && (limits[i] > 0 ==> SinceRefill(s.log, i) <= limits[i])
  {
    BalancedMoves(Launch(limits, now), ms);
  }

  /** A refill gives a limited client its limit, and one without a limit the largest 64-bit number. */
  lemma GrantIsLimit(limits: seq<uint32>, now: int, ms: seq<Move>, i: nat)
    requires i < |limits|
    ensures var s := Moves(Launch(limits, now), ms).core;
      && (limits[i] > 0 ==> s.buckets[i] + SinceRefill(s.log, i) == limits[i])
      && (limits[i] == 0 && EverRefilled(s.log, i) ==>
        s.buckets[i] + SinceRefill(s.log, i) == 0x7FFF_FFFF_FFFF_FFFF)
      && (limits[i] == 0 && !EverRefilled(s.log, i) ==> s.buckets[i] == 0)
  {
    BalancedMoves(Launch(limits, now), ms);
  }

  /** Once refilled, a connected client without a limit keeps every caller served: it is not held back at all. */
  lemma UnlimitedServesAll(limits: seq<uint32>, start: int, ms: seq<Move>, i: nat, now: int)
    requires i < |limits| && limits[i] == 0
    requires var s := Moves(Launch(limits, start), ms).core;
      i in s.connected && EverRefilled(s.log, i) && SinceRefill(s.log, i) < 0x7FFF_FFFF_FFFF_FFFF
    ensures Select(Moves(Launch(limits, start), ms).core, now).1.Some?
  {
    var s := Moves(Launch(limits, start), ms).core;
    GrantIsLimit(limits, start, ms, i);
    assert Tokens(s, now, i) > 0;
    SelectionRule(s, now);
  }

  /** A client with limit zero is not selected before the first refill that finds it connected. */
  lemma UnlimitedOnlyOnceRefilled(limits: seq<uint32>, now: int, ms: seq<Move>, i: nat)
    requires i < |limits| && limits[i] == 0
    requires !EverRefilled(Moves(Launch(limits, now), ms).core.log, i)
    ensures forall at :: Selected(i, at) !in Moves(Launch(limits, now), ms).core.log
  {
    var s := Moves(Launch(limits, now), ms).core;
    BalancedMoves(Launch(limits, now), ms);
    assert s.buckets[i] >= 0;
    NoSelections(s.log, i);
  }

  lemma {:induction false} NoSelections(log: seq<Observation>, i: nat)
    requires SinceRefill(log, i) == 0 && !EverRefilled(log, i)
    ensures forall at :: Selected(i, at) !in log
  {
    if log != [] {
      var last := |log| - 1;
      assert log == log[..last] + [log[last]];
      assert !EverRefilled(log[..last], i) by {
        EverRefilledAppend(log[..last], log[last], i);
      }
      NoSelections(log[..last], i);
    }
  }

  // With a clock that does not go back

  /** Selections of client i within the whole second that starts at `second`. */
  function CountSecond(log: seq<Observation>, i: nat, second: int): nat {
    Count(log, i, second, second + SECOND)
  }

  predicate WholeSecond(t: int) {
    t % SECOND == 0
  }

  ghost predicate NoneAfter(log: seq<Observation>, end: int) {
    forall k :: 0 <= k < |log| && log[k].Selected? ==> log[k].at < end
  }

  /** The last update is at or before the clock, and the bucket covers the second it started. */
  ghost predicate OnTime(s: State, clock: int) {
    && |s.buckets| == |s.limits|
    && WholeSecond(s.lastUpdated) && s.lastUpdated <= clock
    && NoneAfter(s.log, s.lastUpdated + SECOND)
    && (forall i: nat :: i < |s.limits| && s.limits[i] > 0 ==>
      CountSecond(s.log, i, s.lastUpdated) + s.buckets[i] <= s.limits[i])
    && (forall i: nat, t :: i < |s.limits| && s.limits[i] > 0 && WholeSecond(t) ==> CountSecond(s.log, i, t) <= s.limits[i])
  }

  ghost predicate ClockFrom(ms: seq<Move>, clock: int)
    decreases |ms|
  {
    ms == [] ||
    if ms[0].Selecting? then clock <= ms[0].now && ClockFrom(ms[1..], ms[0].now) else ClockFrom(ms[1..], clock)
  }

  lemma {:induction false} CountAppend(log: seq<Observation>, more: seq<Observation>, i: nat, from: int, to: int)
    ensures Count(log + more, i, from, to) == Count(log, i, from, to) + Count(more, i, from, to)
  {
    if more == [] {
      assert log + more == log;
    } else {
      var last := |more| - 1;
      assert (log + more)[..|log + more| - 1] == log + more[..last];
      CountAppend(log, more[..last], i, from, to);
    }
  }

  lemma {:induction false} CountNone(log: seq<Observation>, i: nat, from: int, to: int)
    requires forall k :: 0 <= k < |log| ==> !Hits(log[k], i, from, to)
    ensures Count(log, i, from, to) == 0
  {
    if log != [] {
      CountNone(log[..|log| - 1], i, from, to);
    }
  }

  lemma CountOne(o: Observation, i: nat, from: int, to: int)
    ensures Count([o], i, from, to) == if Hits(o, i, from, to) then 1 else 0
  {
    assert [o][..0] == [];
  }

  /** Observations other than selections change no count. */
  lemma CountQuiet(log: seq<Observation>, more: seq<Observation>, i: nat, from: int, to: int)
    requires forall k :: 0 <= k < |more| ==> !more[k].Selected?
    ensures Count(log + more, i, from, to) == Count(log, i, from, to)
  {
    CountAppend(log, more, i, from, to);
    CountNone(more, i, from, to);
  }

  lemma OnTimeQuiet(s: State, t: State, more: seq<Observation>, clock: int)
    requires OnTime(s, clock)
    requires forall k :: 0 <= k < |more| ==> !more[k].Selected?
    requires t.limits == s.limits && t.buckets == s.buckets && t.lastUpdated == s.lastUpdated && t.log == s.log + more
    ensures OnTime(t, clock)
  {
    forall i: nat, at | i < |s.limits|
      ensures CountSecond(t.log, i, at) == CountSecond(s.log, i, at)
    {
      CountQuiet(s.log, more, i, at, at + SECOND);
    }
  }

  lemma CountsOfRefill(s: State, now: int)
    requires WellFormed(s)
    ensures forall i: nat, at :: CountSecond(Refill(s, now).log, i, at) == CountSecond(s.log, i, at)
  {
    forall i: nat, at
      ensures CountSecond(Refill(s, now).log, i, at) == CountSecond(s.log, i, at)
    {
      CountQuiet(s.log, Refills(s.connected[..|s.connected|], now), i, at, at + SECOND);
    }
  }

  /** A second that has just begun has seen no selection, and a refilled bucket is within its limit. */
  lemma RefilledClient(s: State, clock: int, now: int, i: nat)
    requires WellFormed(s) && OnTime(s, clock) && clock <= now && NeedsRefill(s, now)
    requires i < |s.limits| && s.limits[i] > 0
    ensures CountSecond(s.log, i, Truncate(now)) == 0 && Refill(s, now).buckets[i] <= s.limits[i]
  {
    CountNone(s.log, i, Truncate(now), Truncate(now) + SECOND);
    assert CountSecond(s.log, i, s.lastUpdated) + s.buckets[i] <= s.limits[i];
  }

  lemma OnTimeRefill(s: State, clock: int, now: int)
    requires WellFormed(s) && OnTime(s, clock) && clock <= now && NeedsRefill(s, now)
    ensures OnTime(Refill(s, now), now)
  {
    CountsOfRefill(s, now);
    forall i: nat | i < |s.limits| && s.limits[i] > 0
      ensures CountSecond(s.log, i, Truncate(now)) == 0 && Refill(s, now).buckets[i] <= s.limits[i]
    {
      RefilledClient(s, clock, now, i);
    }
  }

  lemma OnTimeReady(s: State, clock: int, now: int)
    requires WellFormed(s) && OnTime(s, clock) && clock <= now
    ensures OnTime(Ready(s, now), now) && Truncate(now) == Ready(s, now).lastUpdated
  {
    if NeedsRefill(s, now) {
      OnTimeRefill(if s.index >= |s.connected| then s.(index := 0) else s, clock, now);
    }
  }

  lemma OnTimeTake(s: State, p: nat, now: int)
    requires WellFormed(s) && OnTime(s, now) && Truncate(now) == s.lastUpdated
    requires s.index < |s.connected| && p < |s.connected| && s.buckets[s.connected[p]] > 0
    ensures OnTime(Take(s, p, now), now)
  {
    var j := s.connected[p];
    var t := Take(s, p, now);
    forall i: nat, at | i < |s.limits| && WholeSecond(at)
      ensures CountSecond(t.log, i, at) == CountSecond(s.log, i, at) + if i == j && at == s.lastUpdated then 1 else 0
    {
      CountAppend(s.log, [Selected(j, now)], i, at, at + SECOND);
      CountOne(Selected(j, now), i, at, at + SECOND);
      SameSecond(at, now);
    }
  }

  lemma SameSecond(second: int, t: int)
    requires WholeSecond(second)
    ensures second <= t < second + SECOND <==> Truncate(t) == second
  {
  }

  lemma OnTimeStep(w: World, m: Move, clock: int)
    requires Safe(w) && OnTime(w.core, clock)
    requires m.Selecting? ==> clock <= m.now
    ensures OnTime(Step(w, m).core, if m.Selecting? then m.now else clock)
  {
    var s := w.core;
    match m
    case Selecting(now) =>
      OnTimeReady(s, clock, now);
      var p := Choice(Levels(Ready(s, now)), Ready(s, now).index);
      if p.Some? {
        OnTimeTake(Ready(s, now), p.value, now);
      }
    case Dropping(i) =>
      if i in s.connected {
        OnTimeQuiet(s, Step(w, m).core, [Notified(i, false)], clock);
      }
    case Tick(up) =>
      if w.phase.Dialling? && up {
        OnTimeQuiet(s, Step(w, m).core, [Notified(w.phase.pos, true)], clock);
      }
  }

  lemma {:induction false} OnTimeMoves(w: World, ms: seq<Move>, clock: int) returns (end: int)
    requires Safe(w) && OnTime(w.core, clock) && ClockFrom(ms, clock)
    ensures OnTime(Moves(w, ms).core, end)
    decreases |ms|
  {
    end := clock;
    if ms != [] {
      OnTimeStep(w, ms[0], clock);
      end := OnTimeMoves(Step(w, ms[0]), ms[1..], if ms[0].Selecting? then ms[0].now else clock);
    }
  }

  /** No whole second sees more than `limit` selections of client i. */
  ghost predicate Limited(log: seq<Observation>, i: nat, limit: nat) {
    forall t :: WholeSecond(t) ==> CountSecond(log, i, t) <= limit
  }

  /** With a non-decreasing clock no whole second sees more selections of a client than its limit. */
  lemma LimitPerSecond(limits: seq<uint32>, start: int, ms: seq<Move>, i: nat)
    requires i < |limits| && limits[i] > 0 && ClockFrom(ms, start)
    ensures Limited(Moves(Launch(limits, start), ms).core.log, i, limits[i])
  {
    var end := OnTimeMoves(Launch(limits, start), ms, start);
  }

  lemma {:induction false} CountSplit(log: seq<Observation>, i: nat, from: int, mid: int, to: int)
    requires from <= mid <= to
    ensures Count(log, i, from, to) == Count(log, i, from, mid) + Count(log, i, mid, to)
  {
    if log != [] {
      CountSplit(log[..|log| - 1], i, from, mid, to);
    }
  }

  lemma {:induction false} CountWithin(log: seq<Observation>, i: nat, from: int, to: int, from': int, to': int)
    requires from' <= from && to <= to'
    ensures Count(log, i, from, to) <= Count(log, i, from', to')
  {
    if log != [] {
      CountWithin(log[..|log| - 1], i, from, to, from', to');
    }
  }

  lemma {:induction false} ShiftedSecond(second: int, n: nat)
    requires WholeSecond(second)
    ensures WholeSecond(second + n * SECOND)
  {
    if n > 0 {
      ShiftedSecond(second, n - 1);
    }
  }

  /** A stretch of n whole seconds sees at most n times the limit. */
  lemma {:induction false} LimitedSeconds(log: seq<Observation>, i: nat, limit: nat, second: int, n: nat)
    requires Limited(log, i, limit) && WholeSecond(second)
    ensures Count(log, i, second, second + n * SECOND) <= n * limit
  {
    if n == 0 {
      CountNone(log, i, second, second);
    } else {
      var mid := second + (n - 1) * SECOND;
      LimitedSeconds(log, i, limit, second, n - 1);
      ShiftedSecond(second, n - 1);
      assert CountSecond(log, i, mid) <= limit;
      CountSplit(log, i, second, mid, mid + SECOND);
      assert n * limit == (n - 1) * limit + limit;
    }
  }

  lemma LimitedWindow(log: seq<Observation>, i: nat, limit: nat, from: int, w: nat)
    requires Limited(log, i, limit)
    ensures Count(log, i, from, from + w * SECOND) <= (w + 1) * limit
  {
    var second := Truncate(from);
    assert WholeSecond(second) && second <= from < second + SECOND;
    LimitedSeconds(log, i, limit, second, w + 1);
    CountWithin(log, i, from, from + w * SECOND, second, second + (w + 1) * SECOND);
  }

  /** With a non-decreasing clock any window of w seconds sees at most w + 1 times the limit. */
  lemma LimitPerWindow(limits: seq<uint32>, start: int, ms: seq<Move>, i: nat, from: int, w: nat)
    requires i < |limits| && limits[i] > 0 && ClockFrom(ms, start)
    ensures Count(Moves(Launch(limits, start), ms).core.log, i, from, from + w * SECOND) <= (w + 1) * limits[i]
  {
    LimitPerSecond(limits, start, ms, i);
    LimitedWindow(Moves(Launch(limits, start), ms).core.log, i, limits[i], from, w);
  }

  // The same for whole calls

  ghost predicate EventClockFrom(events: seq<Event>, clock: int)
    decreases |events|
  {
    events == [] ||
    if events[0].SelectAt? then clock <= events[0].now && EventClockFrom(events[1..], events[0].now)
    else EventClockFrom(events[1..], clock)
  }

  lemma {:induction false} ClockOfTimeless(ms: seq<Move>, more: seq<Move>, clock: int)
    requires forall k :: 0 <= k < |ms| ==> !ms[k].Selecting?
    ensures ClockFrom(ms + more, clock) <==> ClockFrom(more, clock)
    decreases |ms|
  {
    if ms == [] {
      assert ms + more == more;
    } else {
      assert (ms + more)[1..] == ms[1..] + more;
      ClockOfTimeless(ms[1..], more, clock);
    }
  }

  lemma {:induction false} RoundIsTimeless(s: State, dialled: set<nat>, pos: nat)
    requires WellFormed(s) && pos <= |s.limits|
    ensures forall m :: m in RoundTicks(s, dialled, pos) ==> m.Tick?
    decreases |s.limits| - pos
  {
    if pos < |s.limits| {
      RoundIsTimeless(s, dialled, pos + 1);
    }
  }

  lemma {:induction false} ClockOfRun(s: State, events: seq<Event>, clock: int)
    requires WellFormed(s) && EventClockFrom(events, clock)
    ensures ClockFrom(RunMoves(s, events), clock)
    decreases |events|
  {
    if events != [] {
      var e, next := events[0], Apply(s, events[0]);
      var rest := RunMoves(next, events[1..]);
      ClockOfRun(next, events[1..], if e.SelectAt? then e.now else clock);
      if e.SelectAt? {
        assert ([Selecting(e.now)] + rest)[1..] == rest;
      } else {
        assert forall m :: m in EventMoves(s, e) ==> !m.Selecting? by {
          RoundIsTimeless(s, if e.Reconnect? then e.dialled else {}, 0);
        }
        ClockOfTimeless(EventMoves(s, e), rest, clock);
      }
    }
  }

  /** The window bound for the balancer's own calls, from `Start` on. */
  lemma CallsKeepTheLimit(
    limits: seq<uint32>, start: int, dialled: set<nat>, events: seq<Event>, i: nat, from: int, w: nat)
    requires i < |limits| && limits[i] > 0 && EventClockFrom(events, start)
    ensures var s := Run(BalancerSpec.Start(Fresh(limits), start, dialled), events);
      Count(s.log, i, from, from + w * SECOND) <= (w + 1) * limits[i]
  {
    var launched := Fresh(limits).(lastUpdated := Truncate(start));
    var all := [Reconnect(dialled)] + events;
    assert all[1..] == events;
    assert Run(launched, all) == Run(BalancerSpec.Start(Fresh(limits), start, dialled), events);
    RunIsInterleaving(launched, all);
    ClockOfRun(launched, all, start);
    LimitPerWindow(limits, start, RunMoves(launched, all), i, from, w);
  }

  /** And for a call that waits, after and beside whatever else happens. */
  lemma WaitingCallsKeepTheLimit(
    limits: seq<uint32>, start: int, dialled: set<nat>, before: seq<Event>,
    now: int, end: int, late: nat -> nat, others: nat -> seq<Event>, during: seq<Event>, breaks: set<nat>,
    i: nat, from: int, w: nat)
    requires i < |limits| && limits[i] > 0
    requires var s := Run(BalancerSpec.Start(Fresh(limits), start, dialled), before);
      EventClockFrom(before + CallWait.CallWEvents(s, now, end, late, others, during, breaks), start)
    ensures var s := Run(BalancerSpec.Start(Fresh(limits), start, dialled), before);
      Count(CallWait.CallW(s, now, end, late, others, during, breaks).log, i, from, from + w * SECOND)
      <= (w + 1) * limits[i]
  {
    var started := BalancerSpec.Start(Fresh(limits), start, dialled);
    var s := Run(started, before);
    var call := CallWait.CallWEvents(s, now, end, late, others, during, breaks);
    RunAppend(started, before, call);
    CallWait.CallWIsRun(s, now, end, late, others, during, breaks);
    CallsKeepTheLimit(limits, start, dialled, before + call, i, from, w);
  }

  // When the bound is reached

  /** Between rounds, with one client, which is up and has `level` tokens. */
  ghost predicate Single(w: World, limit: uint32, second: int, level: int) {
    && Safe(w) && w.phase == Idle
    && w.core.limits == [limit] && w.core.connected == [0] && w.core.index == 0
    && w.core.lastUpdated == second && w.core.buckets == [level]
  }

  const COMES_UP := [Tick(false), Tick(false), Tick(true), Tick(false)]

  lemma ComesUp(limit: uint32, start: int)
    ensures var w := Moves(Launch([limit], start), COMES_UP);
      Single(w, limit, Truncate(start), limit) && w.core.log == [Notified(0, true)]
  {
    var w := Launch([limit], start);
    var w2 := Step(Step(w, Tick(false)), Tick(false));
    assert w2 == w.(phase := Dialling(0, []));
    var w3 := Step(w2, Tick(true));
    assert w3.phase == Scanning(1, [0]) && w3.core.log == [Notified(0, true)];
    assert COMES_UP == [Tick(false)] + ([Tick(false)] + ([Tick(true)] + ([Tick(false)] + [])));
    OneMove(w, Tick(false), [Tick(false)] + ([Tick(true)] + ([Tick(false)] + [])));
    OneMove(Step(w, Tick(false)), Tick(false), [Tick(true)] + ([Tick(false)] + []));
    OneMove(w2, Tick(true), [Tick(false)] + []);
    OneMove(w3, Tick(false), []);
  }

  /** While no refill is due the one client pays a token per selection. */
  lemma SinglePays(w: World, limit: uint32, second: int, level: int, now: int)
    requires Single(w, limit, second, level) && level > 0 && now - second < SECOND
    ensures var r := Step(w, Selecting(now));
      Single(r, limit, second, level - 1) && r.core.log == w.core.log + [Selected(0, now)]
  {
    assert Ready(w.core, now) == w.core;
    assert Levels(w.core) == [level];
  }

  /** When one is due it is refilled first. */
  lemma SingleRefills(w: World, limit: uint32, second: int, level: int, now: int)
    requires Single(w, limit, second, level) && limit > 0 && now - second >= SECOND
    ensures var r := Step(w, Selecting(now));
      Single(r, limit, Truncate(now), limit - 1) && r.core.log == w.core.log + [Refilled(0, now)] + [Selected(0, now)]
  {
    var s := w.core;
    RefillStep(s, now, 0);
    assert RefillFirst(s, now, 0).log == s.log && RefillFirst(s, now, 0).buckets == s.buckets;
    var r := Ready(s, now);
    assert r.buckets == [limit] && r.log == s.log + [Refilled(0, now)];
    assert Levels(r) == [limit];
  }

  /** n selections at once. */
  function Burst(now: int, n: nat): (ms: seq<Move>)
    ensures |ms| == n
  {
    if n == 0 then [] else [Selecting(now)] + Burst(now, n - 1)
  }

  lemma CountSelected(log: seq<Observation>, now: int, from: int, to: int)
    requires from <= now < to
    ensures Count(log + [Selected(0, now)], 0, from, to) == Count(log, 0, from, to) + 1
  {
    LastOf(log, Selected(0, now));
  }

  lemma CountRefilled(log: seq<Observation>, now: int, from: int, to: int)
    requires from <= now < to
    ensures Count(log + [Refilled(0, now)] + [Selected(0, now)], 0, from, to) == Count(log, 0, from, to) + 1
  {
    CountQuiet(log, [Refilled(0, now)], 0, from, to);
    CountSelected(log + [Refilled(0, now)], now, from, to);
  }

  /** The tokens selections at `now` can have, and the last refill they leave behind. */
  function Available(limit: uint32, second: int, level: int, now: int): int {
    if now - second >= SECOND then limit else level
  }

  function LastRefill(second: int, now: int): int {
    if now - second >= SECOND then Truncate(now) else second
  }

  lemma FirstOfBurst(w: World, limit: uint32, second: int, level: int, now: int, from: int, to: int) returns (r: World)
    requires Single(w, limit, second, level) && limit > 0 && from <= now < to
    requires Available(limit, second, level, now) > 0
    ensures r == Step(w, Selecting(now))
    ensures Single(r, limit, LastRefill(second, now), Available(limit, second, level, now) - 1)
    ensures Count(r.core.log, 0, from, to) == Count(w.core.log, 0, from, to) + 1
  {
    r := Step(w, Selecting(now));
    if now - second >= SECOND {
      SingleRefills(w, limit, second, level, now);
      CountRefilled(w.core.log, now, from, to);
    } else {
      SinglePays(w, limit, second, level, now);
      CountSelected(w.core.log, now, from, to);
    }
  }

  lemma RefilledOnce(limit: uint32, second: int, now: int, rest: int)
    ensures LastRefill(LastRefill(second, now), now) == LastRefill(second, now)
    ensures Available(limit, LastRefill(second, now), rest, now) == rest
  {
  }

  lemma BurstBegun(w: World, now: int, n: nat)
    requires Safe(w) && n > 0
    ensures Moves(w, Burst(now, n)) == Moves(Step(w, Selecting(now)), Burst(now, n - 1))
  {
    OneMove(w, Selecting(now), Burst(now, n - 1));
  }

  /** A burst of as many selections as there are tokens is served in full, the refill if due included. */
  lemma {:induction false} BurstServed(
    w: World, limit: uint32, second: int, level: int, now: int, n: nat, from: int, to: int) returns (r: World)
    requires Single(w, limit, second, level) && limit > 0 && from <= now < to
    requires n == Available(limit, second, level, now)
    ensures r == Moves(w, Burst(now, n))
    ensures Single(r, limit, LastRefill(second, now), 0)
    ensures Count(r.core.log, 0, from, to) == Count(w.core.log, 0, from, to) + n
    decreases n
  {
    r := w;
    if n > 0 {
      var first := FirstOfBurst(w, limit, second, level, now, from, to);
      RefilledOnce(limit, second, now, n - 1);
      r := BurstServed(first, limit, LastRefill(second, now), n - 1, now, n - 1, from, to);
      BurstBegun(w, now, n);
    }
  }

  /** A burst at `now` and on each of the n - 1 seconds after it. */
  function Beats(now: int, limit: nat, n: nat): seq<Move>
    decreases n
  {
    if n == 0 then [] else Burst(now, limit) + Beats(now + SECOND, limit, n - 1)
  }

  /** On a later whole second the drained client is refilled, and the burst served to its limit. */
  lemma BeatServed(w: World, limit: uint32, second: int, now: int, from: int, to: int) returns (r: World)
    requires Single(w, limit, second, 0) && limit > 0
    requires WholeSecond(now) && second + SECOND <= now && from <= now < to
    ensures r == Moves(w, Burst(now, limit)) && Single(r, limit, now, 0)
    ensures Count(r.core.log, 0, from, to) == Count(w.core.log, 0, from, to) + limit
  {
    assert LastRefill(second, now) == now;
    r := BurstServed(w, limit, second, 0, now, limit, from, to);
  }

  lemma NextBeat(now: int, n: nat, to: int)
    requires WholeSecond(now) && n > 0 && now + n * SECOND < to + SECOND
    ensures WholeSecond(now + SECOND) && now < to && now + SECOND + (n - 1) * SECOND < to + SECOND
  {
    ShiftedSecond(now, 1);
  }

  lemma BeatChained(w: World, limit: nat, now: int, n: nat, mid: World, r: World)
    requires Safe(w) && n > 0 && Moves(w, Burst(now, limit)) == mid
    requires Moves(mid, Beats(now + SECOND, limit, n - 1)) == r
    ensures Moves(w, Beats(now, limit, n)) == r
  {
    Chained(w, Burst(now, limit), mid, Beats(now + SECOND, limit, n - 1), r);
  }

  lemma {:induction false} BeatsLength(now: int, limit: nat, n: nat)
    ensures |Beats(now, limit, n)| == n * limit
    decreases n
  {
    if n > 0 {
      BeatsLength(now + SECOND, limit, n - 1);
      OneMore(n - 1, limit);
    }
  }

  /** Every selection of these bursts is served. */
  lemma {:induction false} BeatsServed(w: World, limit: uint32, second: int, now: int, n: nat, from: int, to: int)
    returns (r: World)
    requires Single(w, limit, second, 0) && limit > 0
    requires WholeSecond(now) && second + SECOND <= now && from <= now && now + n * SECOND < to + SECOND
    ensures r == Moves(w, Beats(now, limit, n))
    ensures Count(r.core.log, 0, from, to) == Count(w.core.log, 0, from, to) + |Beats(now, limit, n)|
    decreases n
  {
    r := w;
    if n > 0 {
      NextBeat(now, n, to);
      var mid := BeatServed(w, limit, second, now, from, to);
      r := BeatsServed(mid, limit, now, now + SECOND, n - 1, from, to);
      BeatChained(w, limit, now, n, mid, r);
    }
  }

  lemma {:induction false} ClockOfBurst(now: int, n: nat, more: seq<Move>, clock: int)
    requires clock <= now && ClockFrom(more, now) && n > 0
    ensures ClockFrom(Burst(now, n) + more, clock)
    decreases n
  {
    var rest := Burst(now, n - 1) + more;
    assert (Burst(now, n) + more)[1..] == rest;
    if n > 1 {
      ClockOfBurst(now, n - 1, more, now);
    } else {
      assert rest == more;
    }
  }

  lemma {:induction false} ClockOfBeats(now: int, limit: nat, n: nat, clock: int)
    requires limit > 0 && clock <= now
    ensures ClockFrom(Beats(now, limit, n), clock)
    decreases n
  {
    if n > 0 {
      ClockOfBeats(now + SECOND, limit, n - 1, now);
      ClockOfBurst(now, limit, Beats(now + SECOND, limit, n - 1), clock);
    }
  }

  /** The client comes up, is selected to its limit at `from` and again on every following whole second. */
  function Greedy(limit: nat, from: int, w: nat): seq<Move> {
    COMES_UP + Burst(from, limit) + Beats(Truncate(from) + SECOND, limit, w)
  }

  lemma GreedyClock(limit: nat, from: int, w: nat)
    requires limit > 0
    ensures ClockFrom(Greedy(limit, from, w), from)
  {
    var beats := Beats(Truncate(from) + SECOND, limit, w);
    var rest := Burst(from, limit) + beats;
    ClockOfBeats(Truncate(from) + SECOND, limit, w, from);
    ClockOfBurst(from, limit, beats, from);
    ClockOfTimeless(COMES_UP, rest, from);
    assert Greedy(limit, from, w) == COMES_UP + rest;
  }

  lemma UnalignedSecond(from: int)
    requires !WholeSecond(from)
    ensures WholeSecond(Truncate(from) + SECOND) && Truncate(from) < from < Truncate(from) + SECOND
  {
  }

  /** Once drained, the client is refilled and drained again on each of the next w whole seconds. */
  lemma LaterBursts(start: World, ms: seq<Move>, drained: World, limit: uint32, from: int, w: nat, to: int)
    returns (r: World)
    requires Safe(start) && Moves(start, ms) == drained && Single(drained, limit, Truncate(from), 0) && limit > 0
    requires !WholeSecond(from) && to == from + w * SECOND
    ensures r == Moves(start, ms + Beats(Truncate(from) + SECOND, limit, w))
    ensures Count(r.core.log, 0, from, to) == Count(drained.core.log, 0, from, to) + w * limit
  {
    var next := Truncate(from) + SECOND;
    UnalignedSecond(from);
    r := BeatsServed(drained, limit, Truncate(from), next, w, from, to);
    BeatsLength(next, limit, w);
    Chained(start, ms, drained, Beats(next, limit, w), r);
  }

  /** The first burst. */
  lemma FirstBurst(start: World, ms: seq<Move>, up: World, limit: uint32, from: int, to: int) returns (r: World)
    requires Safe(start) && Moves(start, ms) == up && Single(up, limit, Truncate(from), limit) && limit > 0
    requires from < to
    ensures r == Moves(start, ms + Burst(from, limit)) && Single(r, limit, Truncate(from), 0)
    ensures Count(r.core.log, 0, from, to) == Count(up.core.log, 0, from, to) + limit
  {
    r := BurstServed(up, limit, Truncate(from), limit, from, limit, from, to);
    Chained(start, ms, up, Burst(from, limit), r);
  }

  lemma BurstsServed(start: World, ms: seq<Move>, up: World, limit: uint32, from: int, w: nat, to: int)
    returns (r: World)
    requires Safe(start) && Moves(start, ms) == up && Single(up, limit, Truncate(from), limit) && limit > 0
    requires w > 0 && !WholeSecond(from) && to == from + w * SECOND
    ensures r == Moves(start, ms + Burst(from, limit) + Beats(Truncate(from) + SECOND, limit, w))
    ensures Count(r.core.log, 0, from, to) == Count(up.core.log, 0, from, to) + limit + w * limit
  {
    var drained := FirstBurst(start, ms, up, limit, from, to);
    r := LaterBursts(start, ms + Burst(from, limit), drained, limit, from, w, to);
  }

  /** The window bound is reached, for every limit and length, from every time that is no whole second. */
  lemma WindowLimitIsReached(limit: uint32, from: int, w: nat)
    requires limit > 0 && w > 0 && !WholeSecond(from)
    ensures ClockFrom(Greedy(limit, from, w), from)
    ensures Count(Moves(Launch([limit], from), Greedy(limit, from, w)).core.log, 0, from, from + w * SECOND)
            == (w + 1) * limit
  {
    GreedyClock(limit, from, w);
    ComesUp(limit, from);
    CountOne(Notified(0, true), 0, from, from + w * SECOND);
    var start := Launch([limit], from);
    var r := BurstsServed(start, COMES_UP, Moves(start, COMES_UP), limit, from, w, from + w * SECOND);
    OneMore(w, limit);
  }

  /** Whatever the clients, their limits and the calls, no client exceeds w times its limit in the w seconds after `from`. */
  ghost predicate LimitHolds(from: int, w: nat) {
    forall limits: seq<uint32>, start: int, ms: seq<Move>, i: nat ::
      i < |limits| && limits[i] > 0 && ClockFrom(ms, start) ==>
      Count(Moves(Launch(limits, start), ms).core.log, i, from, from + w * SECOND) <= w * limits[i]
  }

  /** A limit per second holds over a window of seconds if and only if the window starts on a whole second. */
  lemma LimitHoldsIff(from: int, w: nat)
    requires w > 0
    ensures LimitHolds(from, w) <==> WholeSecond(from)
  {
    if WholeSecond(from) {
      forall limits: seq<uint32>, start: int, ms: seq<Move>, i: nat |
        i < |limits| && limits[i] > 0 && ClockFrom(ms, start)
        ensures Count(Moves(Launch(limits, start), ms).core.log, i, from, from + w * SECOND) <= w * limits[i]
      {
        LimitPerSecond(limits, start, ms, i);
        LimitedSeconds(Moves(Launch(limits, start), ms).core.log, i, limits[i], from, w);
      }
    } else {
      WindowLimitIsReached(1, from, w);
      var limits: seq<uint32> := [1];
      assert Count(Moves(Launch(limits, from), Greedy(1, from, w)).core.log, 0, from, from + w * SECOND) > w * limits[0];
    }
  }
}
