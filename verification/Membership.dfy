/** What stays true of the connected list when every call is one step. */
module Membership {
  import opened BalancerSpec

  /** The connected list is exactly the flagged clients, in order. */
  ghost predicate Synced(s: State) {
    WellFormed(s) && s.connected == Members(s.flags, |s.flags|)
  }

  /** The statuses reported for client i, oldest first. */
  function Reports(log: seq<Observation>, i: nat): seq<bool> {
    if log == [] then []
    else
      var last := |log| - 1;
      Reports(log[..last], i) +
      (if log[last].Notified? && log[last].idx == i then [log[last].up] else [])
  }

  /** Up, down, up, down, ... ending at `now`; a client never reported is down. */
  predicate Alternates(reports: seq<bool>, now: bool) {
    && (forall k :: 0 <= k < |reports| ==> reports[k] == (k % 2 == 0))
    && now == (|reports| % 2 == 1)
  }

  ghost predicate ReportsMatch(s: State) {
    forall i: nat :: i < |s.flags| ==> Alternates(Reports(s.log, i), s.flags[i])
  }

  lemma ReportsAppend(log: seq<Observation>, o: Observation, i: nat)
    ensures Reports(log + [o], i) == Reports(log, i) + (if o.Notified? && o.idx == i then [o.up] else [])
  {
    assert (log + [o])[..|log + [o]| - 1] == log;
  }

  lemma {:induction false} ReportsQuiet(log: seq<Observation>, more: seq<Observation>, i: nat)
    requires forall k :: 0 <= k < |more| ==> !more[k].Notified?
    ensures Reports(log + more, i) == Reports(log, i)
  {
    if more == [] {
      assert log + more == log;
    } else {
      var last := |more| - 1;
      ReportsQuiet(log, more[..last], i);
      assert log + more == (log + more[..last]) + [more[last]];
      ReportsAppend(log + more[..last], more[last], i);
    }
  }

  lemma MatchAfterNotice(s: State, t: State, i: nat, up: bool)
    requires ReportsMatch(s) && i < |s.flags| && s.flags[i] != up
    requires t.flags == s.flags[i := up] && t.log == s.log + [Notified(i, up)]
    ensures ReportsMatch(t)
  {
    forall j: nat | j < |t.flags|
      ensures Alternates(Reports(t.log, j), t.flags[j])
    {
      ReportsAppend(s.log, Notified(i, up), j);
    }
  }

  /** Observations that are no notifications do not matter. */
  lemma MatchAfterQuiet(s: State, t: State, more: seq<Observation>)
    requires ReportsMatch(s) && t.flags == s.flags && t.log == s.log + more
    requires forall k :: 0 <= k < |more| ==> !more[k].Notified?
    ensures ReportsMatch(t)
  {
    forall i: nat | i < |t.flags|
      ensures Alternates(Reports(t.log, i), t.flags[i])
    {
      ReportsQuiet(s.log, more, i);
    }
  }

  lemma ReadyKeepsReports(s: State, now: int)
    requires WellFormed(s) && ReportsMatch(s)
    ensures ReportsMatch(Ready(s, now))
  {
    if NeedsRefill(s, now) {
      MatchAfterQuiet(s, Ready(s, now), Refills(s.connected[..|s.connected|], now));
    } else {
      assert s.log + [] == s.log;
      MatchAfterQuiet(s, Ready(s, now), []);
    }
  }

  lemma SelectKeepsReports(s: State, now: int)
    requires WellFormed(s) && ReportsMatch(s)
    ensures ReportsMatch(Select(s, now).0)
  {
    var ready := Ready(s, now);
    ReadyKeepsReports(s, now);
    var p := Choice(Levels(ready), ready.index);
    if p.Some? {
      MatchAfterQuiet(ready, Take(ready, p.value, now), [Selected(ready.connected[p.value], now)]);
    }
  }

  lemma DisconnectKeeps(s: State, i: nat)
    requires Synced(s) && ReportsMatch(s)
    ensures Synced(Disconnect(s, i)) && ReportsMatch(Disconnect(s, i))
  {
    if i in s.connected {
      MembersInOrder(s.flags, |s.flags|);
      MembersWithout(s.flags, i, |s.flags|);
      MatchAfterNotice(s, Disconnect(s, i), i, false);
    }
  }

  lemma {:induction false} VisitedKeepsReports(s: State, dialled: set<nat>, n: nat)
    requires WellFormed(s) && ReportsMatch(s) && n <= |s.limits|
    ensures ReportsMatch(Visited(s, dialled, n))
  {
    if n > 0 {
      VisitedKeepsReports(s, dialled, n - 1);
      var before := Visited(s, dialled, n - 1);
      if !before.flags[n - 1] && n - 1 in dialled {
        MatchAfterNotice(before, Visited(s, dialled, n), n - 1, true);
      }
    }
  }

  lemma {:induction false} FullMembers(flags: seq<bool>, n: nat)
    requires n <= |flags|
    ensures |Members(flags, n)| <= n
    ensures |Members(flags, n)| == n ==> forall i :: 0 <= i < n ==> flags[i]
  {
    if n > 0 {
      FullMembers(flags, n - 1);
    }
  }

  /** Skipping a round when the two lengths agree skips nothing: every client is up and the round would change no field. */
  lemma LengthTestIsSound(s: State, dialled: set<nat>)
    requires Synced(s) && |s.connected| == |s.limits|
    ensures forall i :: 0 <= i < |s.flags| ==> s.flags[i]
    ensures Visited(s, dialled, |s.limits|) == s
  {
    FullMembers(s.flags, |s.flags|);
    NothingToVisit(s, dialled, |s.limits|);
  }

  lemma {:induction false} NothingToVisit(s: State, dialled: set<nat>, n: nat)
    requires WellFormed(s) && n <= |s.limits|
    requires forall i :: 0 <= i < n ==> s.flags[i]
    ensures Visited(s, dialled, n) == s
  {
    if n > 0 {
      NothingToVisit(s, dialled, n - 1);
    }
  }

  lemma ConnectKeeps(s: State, dialled: set<nat>)
    requires Synced(s) && ReportsMatch(s)
    ensures Synced(ConnectAll(s, dialled)) && ReportsMatch(ConnectAll(s, dialled))
  {
    VisitedKeepsReports(s, dialled, |s.limits|);
  }

  lemma ApplyKeeps(s: State, e: Event)
    requires Synced(s) && ReportsMatch(s)
    ensures Synced(Apply(s, e)) && ReportsMatch(Apply(s, e))
  {
    match e
    case SelectAt(now) => SelectKeepsReports(s, now);
    case DisconnectOf(i) => DisconnectKeeps(s, i);
    case Reconnect(dialled) => ConnectKeeps(s, dialled);
  }

  /** After an undisturbed round exactly the clients that were up or could be dialled are connected; nothing else moves. */
  lemma ConnectEffect(s: State, dialled: set<nat>)
    requires Synced(s)
    ensures var t := ConnectAll(s, dialled);
      && (forall i: nat :: i in t.connected <==> i < |s.limits| && (s.flags[i] || i in dialled))
      && t.buckets == s.buckets && t.index == s.index && t.lastUpdated == s.lastUpdated && t.limits == s.limits
  {
    MembersInOrder(s.flags, |s.flags|);
    FullMembers(s.flags, |s.flags|);
    VisitedFlags(s, dialled, |s.limits|);
    var flags := Visited(s, dialled, |s.limits|).flags;
    MembersInOrder(flags, |flags|);
  }

  /** Starting connects the clients dialled, at the whole second, with the limits as tokens and the cursor in front. */
  lemma StartEffect(limits: seq<uint32>, now: int, dialled: set<nat>)
    ensures var s := BalancerSpec.Start(Fresh(limits), now, dialled);
      && (forall i: nat :: i in s.connected <==> i < |limits| && i in dialled)
      && s.lastUpdated <= now < s.lastUpdated + 1_000_000_000 && s.lastUpdated % 1_000_000_000 == 0
      && s.limits == limits && s.buckets == limits && s.index == 0
  {
    var s := Fresh(limits).(lastUpdated := Truncate(now));
    NobodyUp(s.flags, |s.flags|);
    ConnectEffect(s, dialled);
  }

  lemma {:induction false} RunKeeps(s: State, events: seq<Event>)
    requires Synced(s) && ReportsMatch(s)
    ensures Synced(Run(s, events)) && ReportsMatch(Run(s, events))
    decreases |events|
  {
    if events != [] {
      ApplyKeeps(s, events[0]);
      RunKeeps(Apply(s, events[0]), events[1..]);
    }
  }

  /**
  When connection rounds, disconnects and selections do not overlap, the connected list is always
  exactly the flagged clients in order, and the statuses reported for a client alternate,
  beginning with up and ending with its flag.
  */
  lemma MembershipIsExact(limits: seq<uint32>, now: int, dialled: set<nat>, events: seq<Event>)
    ensures var s := Run(BalancerSpec.Start(Fresh(limits), now, dialled), events);
      && s.connected == Members(s.flags, |s.flags|)
      && forall i: nat :: i < |s.flags| ==> Alternates(Reports(s.log, i), s.flags[i])
  {
    var s := Fresh(limits).(lastUpdated := Truncate(now));
    NobodyUp(s.flags, |s.flags|);
    ConnectKeeps(s, dialled);
    RunKeeps(BalancerSpec.Start(Fresh(limits), now, dialled), events);
  }
}
