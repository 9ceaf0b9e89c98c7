/** The statuses reported to the callback when calls do overlap. */
module Notifications {
  import opened BalancerSpec
  import opened Membership
  import opened Interleaving

  /** No client that is already flagged down is taken out of the list, which would report it down again. */
  ghost predicate DropsAreLive(w: World, ms: seq<Move>)
    requires Safe(w)
    decreases |ms|
  {
    ms == [] || (!DropsTheDead(w, ms[0]) && DropsAreLive(Step(w, ms[0]), ms[1..]))
  }

  ghost predicate DropsTheDead(w: World, m: Move)
    requires Safe(w)
  {
    m.Dropping? && m.idx in w.core.connected && !w.core.flags[m.idx]
  }

  lemma StepKeepsReports(w: World, m: Move)
    requires Safe(w) && ReportsMatch(w.core) && !DropsTheDead(w, m)
    ensures ReportsMatch(Step(w, m).core)
  {
    match m
    case Selecting(now) =>
      SelectKeepsReports(w.core, now);
    case Dropping(i) =>
      if i in w.core.connected {
        MatchAfterNotice(w.core, Disconnect(w.core, i), i, false);
      }
    case Tick(up) =>
      TickKeepsReports(w, up);
  }

  lemma TickKeepsReports(w: World, up: bool)
    requires Safe(w) && ReportsMatch(w.core)
    ensures ReportsMatch(TickStep(w, up).core)
  {
    if w.phase.Dialling? && up {
      MatchAfterNotice(w.core, TickStep(w, up).core, w.phase.pos, true);
    }
  }

  // Once wrong, always wrong

  /** The reports do not alternate. */
  ghost predicate Broken(log: seq<Observation>, i: nat) {
    exists k :: 0 <= k < |Reports(log, i)| && Reports(log, i)[k] != (k % 2 == 0)
  }

  lemma {:induction false} ReportsGrow(log: seq<Observation>, more: seq<Observation>, i: nat)
    ensures |Reports(log, i)| <= |Reports(log + more, i)|
    ensures Reports(log + more, i)[..|Reports(log, i)|] == Reports(log, i)
  {
    if more == [] {
      assert log + more == log;
    } else {
      var last := |more| - 1;
      ReportsGrow(log, more[..last], i);
      ReportsAppend(log + more[..last], more[last], i);
      assert log + more == (log + more[..last]) + [more[last]];
    }
  }

  lemma BrokenForGood(log: seq<Observation>, more: seq<Observation>, i: nat)
    requires Broken(log, i)
    ensures Broken(log + more, i)
  {
    ReportsGrow(log, more, i);
    var k :| 0 <= k < |Reports(log, i)| && Reports(log, i)[k] != (k % 2 == 0);
    assert Reports(log + more, i)[..|Reports(log, i)|][k] == Reports(log, i)[k];
  }

  lemma DeadDropBreaks(w: World, m: Move)
    requires Safe(w) && ReportsMatch(w.core) && DropsTheDead(w, m)
    ensures Broken(Step(w, m).core.log, m.idx)
  {
    var log, i := w.core.log, m.idx;
    ReportsAppend(log, Notified(i, false), i);
    assert Reports(Step(w, m).core.log, i)[|Reports(log, i)|] == false;
  }

  /** Steps only add to the log. */
  lemma LogGrows(w: World, m: Move) returns (more: seq<Observation>)
    requires Safe(w)
    ensures Step(w, m).core.log == w.core.log + more
  {
    var log := w.core.log;
    match m
    case Selecting(now) =>
      more := SelectionGrows(w.core, now);
    case Dropping(i) =>
      more := if i in w.core.connected then [Notified(i, false)] else [];
    case Tick(up) =>
      more := if w.phase.Dialling? && up then [Notified(w.phase.pos, true)] else [];
  }

  lemma ReadyGrows(s: State, now: int) returns (refills: seq<Observation>)
    requires WellFormed(s)
    ensures Ready(s, now).log == s.log + refills
  {
    refills := if NeedsRefill(s, now) then Refills(s.connected[..|s.connected|], now) else [];
  }

  lemma SelectionGrows(s: State, now: int) returns (more: seq<Observation>)
    requires WellFormed(s)
    ensures Select(s, now).0.log == s.log + more
  {
    more := ReadyGrows(s, now);
    var ready := Ready(s, now);
    var p := Choice(Levels(ready), ready.index);
    if p.Some? {
      var selected := [Selected(ready.connected[p.value], now)];
      assert Select(s, now).0.log == ready.log + selected;
      more := more + selected;
    }
  }

  lemma {:induction false} StaysBroken(w: World, ms: seq<Move>, i: nat)
    requires Safe(w) && Broken(w.core.log, i)
    ensures Broken(Moves(w, ms).core.log, i)
    decreases |ms|
  {
    if ms != [] {
      var more := LogGrows(w, ms[0]);
      BrokenForGood(w.core.log, more, i);
      StaysBroken(Step(w, ms[0]), ms[1..], i);
    }
  }

  lemma {:induction false} DeadDropShows(w: World, ms: seq<Move>) returns (i: nat)
    requires Safe(w) && ReportsMatch(w.core) && !DropsAreLive(w, ms)
    ensures i < |w.core.limits| && Broken(Moves(w, ms).core.log, i)
    decreases |ms|
  {
    var next := Step(w, ms[0]);
    if DropsTheDead(w, ms[0]) {
      i := ms[0].idx;
      DeadDropBreaks(w, ms[0]);
      StaysBroken(next, ms[1..], i);
    } else {
      StepKeepsReports(w, ms[0]);
      i := DeadDropShows(next, ms[1..]);
    }
  }

  lemma {:induction false} LiveDropsKeepReports(w: World, ms: seq<Move>)
    requires Safe(w) && ReportsMatch(w.core) && DropsAreLive(w, ms)
    ensures ReportsMatch(Moves(w, ms).core)
    decreases |ms|
  {
    if ms != [] {
      StepKeepsReports(w, ms[0]);
      LiveDropsKeepReports(Step(w, ms[0]), ms[1..]);
    }
  }

  /**
  In an interleaving the statuses reported for every client alternate, from up on and ending with
  its flag, if and only if no disconnect took a client out of the list that was already down.
  */
  lemma ReportsAlternateIff(limits: seq<uint32>, now: int, ms: seq<Move>)
    ensures (var s := Moves(Launch(limits, now), ms).core;
             forall i: nat :: i < |s.flags| ==> Alternates(Reports(s.log, i), s.flags[i]))
            <==> DropsAreLive(Launch(limits, now), ms)
  {
    var w := Launch(limits, now);
    assert ReportsMatch(w.core);
    if DropsAreLive(w, ms) {
      LiveDropsKeepReports(w, ms);
    } else {
      var i := DeadDropShows(w, ms);
    }
  }

  lemma {:induction false} LastDropIsLive(w: World, ms: seq<Move>, m: Move)
    requires Safe(w) && DropsAreLive(w, ms + [m])
    ensures !DropsTheDead(Moves(w, ms), m)
    decreases |ms|
  {
    if ms == [] {
      assert ms + [m] == [m];
    } else {
      assert (ms + [m])[1..] == ms[1..] + [m];
      LastDropIsLive(Step(w, ms[0]), ms[1..], m);
    }
  }

  /** The client that a race has left in the list can be reported down once more. */
  lemma DownIsReportedTwice(limits: seq<uint32>, now: int)
    requires |limits| == 2
    ensures !ReportsMatch(Moves(Launch(limits, now), FIRST_ROUND + RACING_ROUND + [Dropping(0)]).core)
  {
    AfterBothRounds(limits, now);
    var raced := FIRST_ROUND + RACING_ROUND;
    if DropsAreLive(Launch(limits, now), raced + [Dropping(0)]) {
      LastDropIsLive(Launch(limits, now), raced, Dropping(0));
      assert false;
    }
    ReportsAlternateIff(limits, now, raced + [Dropping(0)]);
  }

  // Without the race there are no such disconnects

  /** Every client in the current list is flagged up. */
  ghost predicate AllUp(w: World)
    requires Safe(w)
  {
    forall i :: i in w.core.connected ==> w.core.flags[i]
  }

  lemma AllUpStep(w: World, m: Move)
    requires Safe(w) && InSync(w) && AllUp(w) && !Races(w, m)
    ensures AllUp(Step(w, m))
  {
    match m
    case Selecting(now) =>
      SelectionEffect(w.core, now);
    case Dropping(i) =>
      WithoutKeepsOrder(w.core.connected, i, |w.core.limits|);
    case Tick(up) =>
      if w.phase.Scanning? && w.phase.pos == |w.core.limits| {
        MembersInOrder(w.core.flags, |w.core.limits|);
      }
  }

  lemma {:induction false} RaceFreeDropsAreLive(w: World, ms: seq<Move>)
    requires Safe(w) && InSync(w) && AllUp(w) && RaceFree(w, ms)
    ensures DropsAreLive(w, ms)
    decreases |ms|
  {
    if ms != [] {
      AllUpStep(w, ms[0]);
      InSyncStep(w, ms[0]);
      RaceFreeDropsAreLive(Step(w, ms[0]), ms[1..]);
    }
  }

  /** In particular they alternate in every interleaving without the race of the connection rounds. */
  lemma RaceFreeReportsAlternate(limits: seq<uint32>, now: int, ms: seq<Move>)
    requires RaceFree(Launch(limits, now), ms)
    ensures var s := Moves(Launch(limits, now), ms).core;
      forall i: nat :: i < |s.flags| ==> Alternates(Reports(s.log, i), s.flags[i])
  {
    var w := Launch(limits, now);
    NobodyUp(w.core.flags, |w.core.flags|);
    RaceFreeDropsAreLive(w, ms);
    ReportsAlternateIff(limits, now, ms);
  }
}
