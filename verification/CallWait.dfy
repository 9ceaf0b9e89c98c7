/** `Call` and `CallW`: a selection, the caller's operation, and for `CallW` the sleeps in between. */
module CallWait {
  import opened Outcomes
  import opened BalancerSpec
  import Membership
  import opened Interleaving

  /** What a call did: the state it left, the client it used if any, how often it slept, when it ended selecting. */
  datatype Wait = Wait(state: State, client: Option<nat>, sleeps: nat, now: int)

  /** The operation ran while `during` happened; a connection error makes the balancer drop the client. */
  ghost function Finish(s: State, i: nat, during: seq<Event>, breaks: set<nat>): (r: State)
    requires WellFormed(s)
    ensures WellFormed(r)
  {
    var after := Run(s, during);
    if i in breaks then Disconnect(after, i) else after
  }

  ghost function Call(s: State, now: int, during: seq<Event>, breaks: set<nat>): (r: (State, Option<nat>))
    requires WellFormed(s)
    ensures WellFormed(r.0)
  {
    var (after, client) := Select(s, now);
    if client.Some? then (Finish(after, client.value, during, breaks), client) else (after, None)
  }

  /**
  A call finds no upstream exactly when no connected client has a token. A client whose operation broke is not
  connected afterwards, and without interference nobody else is affected.
  */
  lemma CallOutcome(s: State, now: int, during: seq<Event>, breaks: set<nat>)
    requires WellFormed(s)
    ensures var (t, used) := Call(s, now, during, breaks);
      && (used.None? <==> forall i :: i in s.connected ==> Tokens(s, now, i) == 0)
      && (used.Some? && used.value in breaks ==> used.value !in t.connected)
      && (during == [] ==> forall i: nat :: i in t.connected <==> i in s.connected && !(used == Some(i) && i in breaks))
  {
    SelectionRule(s, now);
    SelectionEffect(s, now);
    var (after, used) := Select(s, now);
    if used.Some? {
      var ran := Run(after, during);
      WithoutKeepsOrder(ran.connected, used.value, |ran.limits|);
    }
  }

  /** A call whose operation does not break leaves what the selection and the others did, and nothing else. */
  lemma UnbrokenCall(s: State, now: int, during: seq<Event>, breaks: set<nat>)
    requires WellFormed(s)
    ensures var (t, used) := Call(s, now, during, breaks);
      && used == Select(s, now).1
      && (used.None? ==> t == Select(s, now).0)
      && (used.Some? && used.value !in breaks ==> t == Run(Select(s, now).0, during))
  {
  }

  /** One whose operation breaks leaves that without the client. */
  lemma BrokenCall(s: State, now: int, during: seq<Event>, breaks: set<nat>)
    requires WellFormed(s) && Select(s, now).1.Some? && Select(s, now).1.value in breaks
    ensures Call(s, now, during, breaks).0 == Run(s, [SelectAt(now)] + (during + [DisconnectOf(Select(s, now).1.value)]))
  {
    var i := Select(s, now).1.value;
    RunOne(s, SelectAt(now), during + [DisconnectOf(i)]);
    RunAppend(Select(s, now).0, during, [DisconnectOf(i)]);
    RunOne(Run(Select(s, now).0, during), DisconnectOf(i), []);
    assert [DisconnectOf(i)] + [] == [DisconnectOf(i)];
  }

  /** A context that ends by itself, by being cancelled, or either way. */
  datatype Context = Context(deadline: Option<int>, cancelled: Option<int>) {
    predicate Ends() {
      deadline.Some? || cancelled.Some?
    }

    /** The moment from which the context reports an error. */
    function End(): (end: int)
      requires Ends()
      ensures deadline.Some? ==> end <= deadline.value
      ensures cancelled.Some? ==> end <= cancelled.value
      ensures Some(end) == deadline || Some(end) == cancelled
    {
      if Cause() == Canceled then cancelled.value else deadline.value
    }

    /** What came first. */
    function Cause(): (cause: ContextError)
      requires Ends()
      ensures cause == Canceled <==> cancelled.Some? && (deadline.Some? ==> cancelled.value < deadline.value)
    {
      if cancelled.Some? && (deadline.None? || cancelled.value < deadline.value) then Canceled else DeadlineExceeded
    }
  }

  datatype ContextError = Canceled | DeadlineExceeded

  /** When a one-second sleep is over: after a second or when the context ends, whichever comes first, and then `late`. */
  function WakeUp(now: int, end: int, late: nat): (wake: int)
    ensures wake >= now
    ensures wake < end ==> wake >= now + SECOND
  {
    (if now + SECOND <= end then now + SECOND else if now <= end then end else now) + late
  }

  /**
  The waiting loop of `CallW` from its k-th selection on. `others(k)` is what the rest of the
  program does to the balancer during the k-th sleep, `late(k)` by how much that sleep overruns.
  */
  ghost function SelectOrSleep(
    s: State, now: int, end: int, late: nat -> nat, others: nat -> seq<Event>, k: nat): (w: Wait)
    requires WellFormed(s)
    ensures WellFormed(w.state) && w.sleeps >= k
    decreases end - now
  {
    var (after, client) := Select(s, now);
    if client.Some? then Wait(after, client, k, now)
    else
      var wake := WakeUp(now, end, late(k));
      if wake >= end then Wait(Run(after, others(k)), None, k + 1, wake)
      else SelectOrSleep(Run(after, others(k)), wake, end, late, others, k + 1)
  }

  /** A call that found nobody in time goes on from where its sleep ended. */
  lemma SleepsOn(s: State, now: int, wake: int, end: int, late: nat -> nat, others: nat -> seq<Event>, k: nat)
    returns (next: State)
    requires WellFormed(s) && Select(s, now).1.None? && wake == WakeUp(now, end, late(k)) && wake < end
    ensures WellFormed(next) && next == Run(Select(s, now).0, others(k))
    ensures SelectOrSleep(s, now, end, late, others, k) == SelectOrSleep(next, wake, end, late, others, k + 1)
  {
    next := Run(Select(s, now).0, others(k));
  }

  lemma EndsHere(s: State, now: int, end: int, late: nat -> nat, others: nat -> seq<Event>, k: nat)
    requires WellFormed(s) && (Select(s, now).1.Some? || WakeUp(now, end, late(k)) >= end)
    ensures var w := SelectOrSleep(s, now, end, late, others, k);
      w.sleeps <= k + 1 && (w.client.None? ==> w.now >= end)
  {
  }

  /** Whatever other callers do, a call sleeps at most once more than there are whole seconds to the end of its context. */
  lemma {:induction false} SleepsAreBounded(
    s: State, now: int, end: int, late: nat -> nat, others: nat -> seq<Event>, k: nat)
    requires WellFormed(s)
    ensures var w := SelectOrSleep(s, now, end, late, others, k);
      && (w.sleeps <= k + 1 || (w.sleeps - k - 1) * SECOND < end - now)
      && (w.client.None? ==> w.now >= end)
    decreases end - now
  {
    var wake := WakeUp(now, end, late(k));
    if Select(s, now).1.None? && wake < end {
      var next := SleepsOn(s, now, wake, end, late, others, k);
      SleepsAreBounded(next, wake, end, late, others, k + 1);
      OneSleepMore(SelectOrSleep(next, wake, end, late, others, k + 1).sleeps, k, now, wake, end);
    } else {
      EndsHere(s, now, end, late, others, k);
    }
  }

  lemma OneSleepMore(sleeps: nat, k: nat, now: int, wake: int, end: int)
    requires sleeps <= k + 1 + 1 || (sleeps - (k + 1) - 1) * SECOND < end - wake
    requires now + SECOND <= wake < end
    ensures sleeps <= k + 1 || (sleeps - k - 1) * SECOND < end - now
  {
  }

  /** A refill makes every connected bucket positive, so the selection that does it finds a client. */
  lemma RefillFindsClient(s: State, now: int)
    requires WellFormed(s) && s.connected != [] && NeedsRefill(s, now)
    ensures Select(s, now).1.Some?
  {
    var ready := Ready(s, now);
    assert s.connected[..|s.connected|] == s.connected;
    assert s.connected[0] in s.connected;
    assert Levels(ready)[0] > 0;
  }

  /** A selection that found nothing refilled nothing but, possibly, an empty list. */
  lemma FailedSelect(s: State, now: int)
    requires WellFormed(s) && Select(s, now).1.None?
    ensures var t := Select(s, now).0;
      && t.connected == s.connected
      && (s.connected != [] ==> t.lastUpdated == s.lastUpdated && !NeedsRefill(s, now))
  {
    if s.connected != [] && NeedsRefill(s, now) {
      RefillFindsClient(s, now);
    }
  }

  // A lone caller and the reconnect loop

  /** Only the reconnect loop is at work. */
  ghost predicate OnlyRounds(events: seq<Event>) {
    forall l :: 0 <= l < |events| ==> events[l].Reconnect?
  }

  ghost predicate LoneCaller(others: nat -> seq<Event>) {
    forall k :: OnlyRounds(others(k))
  }

  /** No round will empty the list: none takes place while it is full, and a client that is up stays up. */
  ghost predicate Somebody(s: State) {
    s.connected != [] && (|s.connected| == |s.limits| || exists i :: 0 <= i < |s.flags| && s.flags[i])
  }

  lemma RoundKeepsSomebody(s: State, dialled: set<nat>)
    requires WellFormed(s) && Somebody(s)
    ensures Somebody(ConnectAll(s, dialled)) && ConnectAll(s, dialled).lastUpdated == s.lastUpdated
  {
    if |s.connected| != |s.limits| {
      var i :| 0 <= i < |s.flags| && s.flags[i];
      VisitedFlags(s, dialled, |s.limits|);
      var flags := Visited(s, dialled, |s.limits|).flags;
      MembersInOrder(flags, |s.limits|);
      assert flags[i] && i in Members(flags, |s.limits|);
    }
  }

  lemma {:induction false} RoundsKeepSomebody(s: State, events: seq<Event>)
    requires WellFormed(s) && Somebody(s) && OnlyRounds(events)
    ensures Somebody(Run(s, events)) && Run(s, events).lastUpdated == s.lastUpdated
    decreases |events|
  {
    if events != [] {
      RoundKeepsSomebody(s, events[0].dialled);
      RoundsKeepSomebody(Apply(s, events[0]), events[1..]);
    }
  }

  /** After a sleep in which only rounds took place somebody is still there, and is refilled. */
  lemma SecondSelectionFinds(s: State, now: int, wake: int, events: seq<Event>)
    requires WellFormed(s) && Somebody(s) && s.lastUpdated <= now && now + SECOND <= wake
    requires Select(s, now).1.None? && OnlyRounds(events)
    ensures Select(Run(Select(s, now).0, events), wake).1.Some?
  {
    var after := Select(s, now).0;
    FailedSelect(s, now);
    SelectionEffect(s, now);
    RoundsKeepSomebody(after, events);
    RefillFindsClient(Run(after, events), wake);
  }

  /**
  With only the reconnect loop beside it, somebody connected who will not be lost to a round, and a
  clock that has not gone back, one sleep is enough: the call fails exactly if its first selection
  does and the sleep runs into the end of the context.
  */
  lemma LoneCallSleepsOnce(s: State, now: int, end: int, late: nat -> nat, others: nat -> seq<Event>)
    requires WellFormed(s) && Somebody(s) && s.lastUpdated <= now && LoneCaller(others)
    ensures var w := SelectOrSleep(s, now, end, late, others, 0);
      && w.sleeps <= 1
      && (w.client.None? <==> Select(s, now).1.None? && WakeUp(now, end, late(0)) >= end)
  {
    var wake := WakeUp(now, end, late(0));
    if Select(s, now).1.None? && wake < end {
      assert OnlyRounds(others(0));
      SecondSelectionFinds(s, now, wake, others(0));
    }
  }

  /**
  The times of such a call in figures: a caller who found nobody is served a second later (and as
  much later as the sleep overran) if that is before the end, and otherwise gives up at the end.
  */
  lemma LoneCallInFigures(s: State, now: int, end: int, late: nat -> nat, others: nat -> seq<Event>)
    requires WellFormed(s) && Somebody(s) && s.lastUpdated <= now && LoneCaller(others)
    ensures var w := SelectOrSleep(s, now, end, late, others, 0);
      if Select(s, now).1.Some? then w.client == Select(s, now).1 && w.sleeps == 0 && w.now == now
      else
        && w.sleeps == 1
        && (now + 1_000_000_000 + late(0) < end ==> w.client.Some? && w.now == now + 1_000_000_000 + late(0))
        && (now + 1_000_000_000 + late(0) >= end ==> w.client.None?)
        && (now + 1_000_000_000 <= end <= now + 1_000_000_000 + late(0) ==> w.now == now + 1_000_000_000 + late(0))
        && (now <= end <= now + 1_000_000_000 ==> w.now == end + late(0))
        && (end < now ==> w.now == now + late(0))
  {
    var wake := WakeUp(now, end, late(0));
    LoneCallSleepsOnce(s, now, end, late, others);
    if Select(s, now).1.None? && wake < end {
      assert OnlyRounds(others(0));
      SecondSelectionFinds(s, now, wake, others(0));
    }
  }

  /** While calls do not overlap, that is so whenever anybody is connected. */
  lemma SyncedIsSomebody(s: State)
    requires Membership.Synced(s) && s.connected != []
    ensures Somebody(s)
  {
    MembersInOrder(s.flags, |s.flags|);
    assert s.connected[0] in s.connected;
  }

  /** Every client is flagged down, and the list is not full, so that a round takes place. */
  ghost predicate Deserted(s: State) {
    (s.connected == [] || |s.connected| != |s.limits|) && forall i :: 0 <= i < |s.flags| ==> !s.flags[i]
  }

  /** A round that dials nobody then leaves nobody. */
  lemma RoundOfNobody(s: State)
    requires WellFormed(s) && Deserted(s)
    ensures ConnectAll(s, {}).connected == [] && ConnectAll(s, {}).flags == s.flags
  {
    VisitedFlags(s, {}, |s.limits|);
    var flags := Visited(s, {}, |s.limits|).flags;
    assert flags == s.flags;
    NobodyUp(flags, |s.limits|);
  }

  /** In every sleep one round, and no dial succeeds. */
  function FailingRounds(k: nat): seq<Event> {
    [Reconnect({})]
  }

  lemma StaysDeserted(s: State, now: int, k: nat) returns (next: State)
    requires WellFormed(s) && Deserted(s) && Select(s, now).1.None?
    ensures next == Run(Select(s, now).0, FailingRounds(k))
    ensures WellFormed(next) && Deserted(next) && forall at :: Select(next, at).1.None?
  {
    var after := Select(s, now).0;
    SelectionEffect(s, now);
    RoundOfNobody(after);
    RunOne(after, Reconnect({}), []);
    assert FailingRounds(k) == [Reconnect({})] + [];
    next := ConnectAll(after, {});
  }

  /** A caller that found nobody then waits in vain. */
  lemma {:induction false} LoneCallIsStranded(s: State, now: int, end: int, late: nat -> nat, k: nat)
    requires WellFormed(s) && Deserted(s) && Select(s, now).1.None?
    ensures SelectOrSleep(s, now, end, late, FailingRounds, k).client.None?
    decreases end - now
  {
    var next := StaysDeserted(s, now, k);
    var wake := WakeUp(now, end, late(k));
    if wake < end {
      LoneCallIsStranded(next, wake, end, late, k + 1);
    }
  }

  ghost predicate Served(s: State, now: int, end: int, late: nat -> nat, others: nat -> seq<Event>)
    requires WellFormed(s)
  {
    SelectOrSleep(s, now, end, late, others, 0).client.Some?
  }

  /** A call that found nobody at first and has time for a sleep. */
  ghost predicate Sleeps(s: State, now: int, end: int, late: nat -> nat)
    requires WellFormed(s)
  {
    s.lastUpdated <= now && Select(s, now).1.None? && WakeUp(now, end, late(0)) < end
  }

  lemma ServedAmongRounds(s: State, now: int, end: int, late: nat -> nat, others: nat -> seq<Event>)
    requires WellFormed(s) && Sleeps(s, now, end, late) && Somebody(s) && LoneCaller(others)
    ensures Served(s, now, end, late, others)
  {
    LoneCallSleepsOnce(s, now, end, late, others);
  }

  lemma StrandedAmongRounds(s: State, now: int, end: int, late: nat -> nat)
    requires WellFormed(s) && Sleeps(s, now, end, late) && s.connected != [] && !Somebody(s)
    ensures LoneCaller(FailingRounds) && !Served(s, now, end, late, FailingRounds)
  {
    assert Deserted(s);
    LoneCallIsStranded(s, now, end, late, 0);
  }

  /** A lone caller gets a client, whatever the reconnect loop does. */
  ghost predicate AlwaysServed(s: State, now: int, end: int, late: nat -> nat)
    requires WellFormed(s)
  {
    forall others :: LoneCaller(others) ==> Served(s, now, end, late, others)
  }

  /** A lone caller that has to sleep is sure of a client if and only if the list is full or some client is up. */
  lemma LoneCallIsServedIff(s: State, now: int, end: int, late: nat -> nat)
    requires WellFormed(s) && s.connected != [] && Sleeps(s, now, end, late)
    ensures AlwaysServed(s, now, end, late)
            <==> |s.connected| == |s.limits| || exists i :: 0 <= i < |s.flags| && s.flags[i]
  {
    if Somebody(s) {
      forall others | LoneCaller(others)
        ensures Served(s, now, end, late, others)
      {
        ServedAmongRounds(s, now, end, late, others);
      }
    } else {
      StrandedAmongRounds(s, now, end, late);
    }
  }

  /** Such a state can come about: the race leaves client 0 listed and down, and then client 1 is disconnected. */
  lemma DesertionHappens(limits: seq<uint32>, now: int)
    requires |limits| == 2
    ensures var w := Moves(Launch(limits, now), FIRST_ROUND + RACING_ROUND + [Dropping(1)]);
      w.phase == Idle && w.core.connected == [0] && Deserted(w.core)
  {
    var w := Moves(Launch(limits, now), FIRST_ROUND + RACING_ROUND);
    AfterBothRounds(limits, now);
    MovesAppend(Launch(limits, now), FIRST_ROUND + RACING_ROUND, [Dropping(1)]);
    assert [Dropping(1)] + [] == [Dropping(1)];
    OneMove(w, Dropping(1), []);
    DisconnectAt(w.core, 1);
  }

  /** Selections and disconnects connect nobody. */
  lemma {:induction false} StaysEmpty(s: State, events: seq<Event>)
    requires WellFormed(s) && s.connected == []
    requires forall k :: 0 <= k < |events| ==> !events[k].Reconnect?
    ensures Run(s, events).connected == []
    decreases |events|
  {
    if events != [] {
      if events[0].SelectAt? {
        SelectionEffect(s, events[0].now);
      }
      StaysEmpty(Apply(s, events[0]), events[1..]);
    }
  }

  /** With nobody connected and nobody reconnecting, a call waits until its context ends and fails. */
  lemma {:induction false} EmptyListTimesOut(
    s: State, now: int, end: int, late: nat -> nat, others: nat -> seq<Event>, k: nat)
    requires WellFormed(s) && s.connected == []
    requires forall j, l :: 0 <= l < |others(j)| ==> !others(j)[l].Reconnect?
    ensures var w := SelectOrSleep(s, now, end, late, others, k);
      w.client.None? && w.now >= end && w.state.connected == []
    decreases end - now
  {
    var (after, client) := Select(s, now);
    assert client.None?;
    FailedSelect(s, now);
    StaysEmpty(after, others(k));
    var wake := WakeUp(now, end, late(k));
    if wake < end {
      EmptyListTimesOut(Run(after, others(k)), wake, end, late, others, k + 1);
    }
  }

  /** A call whose k-th selection was at `now` failed at the end of its context, after one sleep a second. */
  ghost predicate FailedOnTime(w: Wait, now: int, end: int, k: nat) {
    && w.client.None? && w.now == end
    && (w.sleeps - k - 1) * 1_000_000_000 < end - now <= (w.sleeps - k) * 1_000_000_000
  }

  lemma OneSecondLess(w: Wait, now: int, end: int, k: nat)
    requires FailedOnTime(w, now + 1_000_000_000, end, k + 1)
    ensures FailedOnTime(w, now, end, k)
  {
  }

  lemma NobodyToSelect(s: State, now: int)
    requires WellFormed(s) && s.connected == []
    ensures Select(s, now).1.None? && Select(s, now).0.connected == []
  {
    SelectionRule(s, now);
    SelectionEffect(s, now);
  }

  /** The last sleep, which the end of the context cuts short. */
  lemma GivesUpOnTime(s: State, now: int, end: int, late: nat -> nat, others: nat -> seq<Event>, k: nat)
    requires WellFormed(s) && Select(s, now).1.None? && now < end <= now + 1_000_000_000 && late(k) == 0
    ensures var w := SelectOrSleep(s, now, end, late, others, k);
      w.client.None? && w.now == end && w.sleeps == k + 1
  {
  }

  lemma WakesAfterOneSecond(now: int, end: int)
    requires now + 1_000_000_000 < end
    ensures WakeUp(now, end, 0) == now + 1_000_000_000
  {
  }

  /** With sleeps that do not overrun, that is exactly at its end, after one sleep a second. */
  lemma {:induction false} EmptyListEndsOnTime(
    s: State, now: int, end: int, late: nat -> nat, others: nat -> seq<Event>, k: nat)
    requires WellFormed(s) && s.connected == [] && now < end
    requires forall j, l :: 0 <= l < |others(j)| ==> !others(j)[l].Reconnect?
    requires forall j :: late(j) == 0
    ensures FailedOnTime(SelectOrSleep(s, now, end, late, others, k), now, end, k)
    decreases end - now
  {
    NobodyToSelect(s, now);
    if end <= now + 1_000_000_000 {
      GivesUpOnTime(s, now, end, late, others, k);
    } else {
      WakesAfterOneSecond(now, end);
      var next := SleepsOn(s, now, now + 1_000_000_000, end, late, others, k);
      StaysEmpty(Select(s, now).0, others(k));
      EmptyListEndsOnTime(next, now + 1_000_000_000, end, late, others, k + 1);
      OneSecondLess(SelectOrSleep(s, now, end, late, others, k), now, end, k);
    }
  }

  // A waiting call as a run

  /** What happens to the balancer from the k-th selection of a waiting call on: its own steps and those of the others. */
  ghost function WaitEvents(
    s: State, now: int, end: int, late: nat -> nat, others: nat -> seq<Event>, k: nat): seq<Event>
    requires WellFormed(s)
    decreases end - now
  {
    var (after, client) := Select(s, now);
    [SelectAt(now)] +
    if client.Some? then []
    else
      var wake := WakeUp(now, end, late(k));
      others(k) + if wake >= end then [] else WaitEvents(Run(after, others(k)), wake, end, late, others, k + 1)
  }

  lemma {:induction false} WaitIsRun(
    s: State, now: int, end: int, late: nat -> nat, others: nat -> seq<Event>, k: nat)
    requires WellFormed(s)
    ensures Run(s, WaitEvents(s, now, end, late, others, k)) == SelectOrSleep(s, now, end, late, others, k).state
    decreases end - now
  {
    var (after, client) := Select(s, now);
    var rest := WaitEvents(s, now, end, late, others, k)[1..];
    RunOne(s, SelectAt(now), rest);
    assert WaitEvents(s, now, end, late, others, k) == [SelectAt(now)] + rest;
    if client.None? {
      var wake := WakeUp(now, end, late(k));
      if wake < end {
        var next := Run(after, others(k));
        RunAppend(after, others(k), WaitEvents(next, wake, end, late, others, k + 1));
        WaitIsRun(next, wake, end, late, others, k + 1);
      } else {
        assert rest == others(k);
      }
    }
  }

  /** The operation and, when it breaks, the disconnect. */
  function FinishEvents(i: nat, during: seq<Event>, breaks: set<nat>): seq<Event> {
    during + if i in breaks then [DisconnectOf(i)] else []
  }

  lemma FinishIsRun(s: State, i: nat, during: seq<Event>, breaks: set<nat>)
    requires WellFormed(s)
    ensures Run(s, FinishEvents(i, during, breaks)) == Finish(s, i, during, breaks)
  {
    if i in breaks {
      RunAppend(s, during, [DisconnectOf(i)]);
      RunOne(Run(s, during), DisconnectOf(i), []);
    } else {
      assert during + [] == during;
    }
  }

  /** The state a call to `CallW` leaves. */
  ghost function CallW(
    s: State, now: int, end: int, late: nat -> nat, others: nat -> seq<Event>, during: seq<Event>, breaks: set<nat>)
    : (r: State)
    requires WellFormed(s)
    ensures WellFormed(r)
  {
    var w := SelectOrSleep(s, now, end, late, others, 0);
    if w.client.Some? then Finish(w.state, w.client.value, during, breaks) else w.state
  }

  ghost function CallWEvents(
    s: State, now: int, end: int, late: nat -> nat, others: nat -> seq<Event>, during: seq<Event>, breaks: set<nat>)
    : seq<Event>
    requires WellFormed(s)
  {
    var w := SelectOrSleep(s, now, end, late, others, 0);
    WaitEvents(s, now, end, late, others, 0) +
    if w.client.Some? then FinishEvents(w.client.value, during, breaks) else []
  }

  /** A call that waits is a run of whole selections and disconnects, with what the others do in between. */
  lemma CallWIsRun(
    s: State, now: int, end: int, late: nat -> nat, others: nat -> seq<Event>, during: seq<Event>, breaks: set<nat>)
    requires WellFormed(s)
    ensures Run(s, CallWEvents(s, now, end, late, others, during, breaks))
            == CallW(s, now, end, late, others, during, breaks)
  {
    var w := SelectOrSleep(s, now, end, late, others, 0);
    var waiting := WaitEvents(s, now, end, late, others, 0);
    WaitIsRun(s, now, end, late, others, 0);
    if w.client.Some? {
      RunAppend(s, waiting, FinishEvents(w.client.value, during, breaks));
      FinishIsRun(w.state, w.client.value, during, breaks);
    } else {
      assert waiting + [] == waiting;
    }
  }
}
