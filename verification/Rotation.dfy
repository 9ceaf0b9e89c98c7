/** Which clients a series of selections picks while nobody connects or disconnects. */
module Rotation {
  import opened Outcomes
  import opened Arithmetic
  import opened BalancerSpec

  /** The state after selecting at each of the given times, and what each selection returned. */
  ghost function Selects(s: State, times: seq<int>): (r: (State, seq<Option<nat>>))
    requires WellFormed(s)
    ensures WellFormed(r.0) && |r.1| == |times|
  {
    if times == [] then (s, [])
    else
      var last := |times| - 1;
      var before := Selects(s, times[..last]);
      var step := Select(before.0, times[last]);
      (step.0, before.1 + [step.1])
  }

  function CountOf(results: seq<Option<nat>>, i: nat): nat {
    if results == [] then 0
    else CountOf(results[..|results| - 1], i) + if results[|results| - 1] == Some(i) then 1 else 0
  }

  function Successes(results: seq<Option<nat>>): nat {
    if results == [] then 0
    else Successes(results[..|results| - 1]) + if results[|results| - 1].Some? then 1 else 0
  }

  lemma CountOfAppend(results: seq<Option<nat>>, r: Option<nat>, i: nat)
    ensures CountOf(results + [r], i) == CountOf(results, i) + if r == Some(i) then 1 else 0
    ensures Successes(results + [r]) == Successes(results) + if r.Some? then 1 else 0
  {
    assert (results + [r])[..|results + [r]| - 1] == results;
  }

  // Work conservation

  function Sum(levels: seq<int>): int {
    if levels == [] then 0 else Sum(levels[..|levels| - 1]) + levels[|levels| - 1]
  }

  lemma {:induction false} SumUpdate(levels: seq<int>, p: nat, x: int)
    requires p < |levels|
    ensures Sum(levels[p := x]) == Sum(levels) - levels[p] + x
  {
    var last := |levels| - 1;
    if p < last {
      assert levels[p := x][..last] == levels[..last][p := x];
      SumUpdate(levels[..last], p, x);
    } else {
      assert levels[p := x][..last] == levels[..last];
    }
  }

  lemma {:induction false} SumZeroIff(levels: seq<int>)
    requires forall k :: 0 <= k < |levels| ==> 0 <= levels[k]
    ensures 0 <= Sum(levels)
    ensures Sum(levels) == 0 <==> forall k :: 0 <= k < |levels| ==> levels[k] == 0
  {
    if levels != [] {
      SumZeroIff(levels[..|levels| - 1]);
    }
  }

  ghost predicate NoRefillDue(s: State, times: seq<int>) {
    forall k :: 0 <= k < |times| ==> !NeedsRefill(s, times[k])
  }

  lemma LevelsAfterTake(s: State, p: nat, now: int)
    requires WellFormed(s)
    requires s.index < |s.connected| && p < |s.connected| && s.buckets[s.connected[p]] > 0
    ensures Levels(Take(s, p, now)) == Levels(s)[p := Levels(s)[p] - 1]
  {
  }

  /** One selection that needs no refill: it fails only when nothing is left, and takes exactly one token. */
  lemma SelectTakesOne(s: State, now: int)
    requires WellFormed(s) && !NeedsRefill(s, now)
    ensures var (t, r) := Select(s, now);
      && t.connected == s.connected && t.lastUpdated == s.lastUpdated && t.limits == s.limits
      && (r.Some? <==> Sum(Levels(s)) > 0)
      && Sum(Levels(t)) == Sum(Levels(s)) - (if r.Some? then 1 else 0)
      && (forall i :: 0 <= i < |s.limits| ==> t.buckets[i] == s.buckets[i] - if r == Some(i) then 1 else 0)
      && (r.Some? ==> r.value in s.connected)
  {
    var ready := Ready(s, now);
    assert Levels(ready) == Levels(s);
    SumZeroIff(Levels(s));
    var p := Choice(Levels(ready), ready.index);
    if p.Some? {
      assert Levels(s)[p.value] > 0;
      TakeTakesOne(ready, p.value, now);
    }
  }

  lemma TakeTakesOne(s: State, p: nat, now: int)
    requires WellFormed(s)
    requires s.index < |s.connected| && p < |s.connected| && s.buckets[s.connected[p]] > 0
    ensures var t := Take(s, p, now);
      && Sum(Levels(t)) == Sum(Levels(s)) - 1
      && (forall i :: 0 <= i < |s.limits| ==> t.buckets[i] == s.buckets[i] - if s.connected[p] == i then 1 else 0)
  {
    LevelsAfterTake(s, p, now);
    SumUpdate(Levels(s), p, Levels(s)[p] - 1);
  }

  /** How state `t` and the results got there from `s` by selections alone. */
  ghost predicate Spent(s: State, t: State, results: seq<Option<nat>>)
    requires WellFormed(s) && WellFormed(t)
  {
    && t.connected == s.connected && t.lastUpdated == s.lastUpdated && |t.limits| == |s.limits|
    && Sum(Levels(t)) == (if |results| <= Sum(Levels(s)) then Sum(Levels(s)) - |results| else 0)
    && (forall k :: 0 <= k < |results| ==> (results[k].Some? <==> k < Sum(Levels(s))))
    && (forall i: nat :: i < |s.limits| ==> t.buckets[i] == s.buckets[i] - CountOf(results, i))
    && (forall i: nat :: i !in s.connected ==> CountOf(results, i) == 0)
  }

  lemma SpentStep(s: State, t: State, results: seq<Option<nat>>, now: int)
    requires WellFormed(s) && WellFormed(t) && Spent(s, t, results) && !NeedsRefill(s, now)
    ensures Spent(s, Select(t, now).0, results + [Select(t, now).1])
  {
    SelectTakesOne(t, now);
    SumZeroIff(Levels(t));
    forall i: nat {
      CountOfAppend(results, Select(t, now).1, i);
    }
  }

  lemma {:induction false} SelectsSpend(s: State, times: seq<int>)
    requires WellFormed(s) && NoRefillDue(s, times)
    ensures Spent(s, Selects(s, times).0, Selects(s, times).1)
  {
    SumZeroIff(Levels(s));
    if times != [] {
      var last := |times| - 1;
      SelectsSpend(s, times[..last]);
      var before := Selects(s, times[..last]);
      SpentStep(s, before.0, before.1, times[last]);
    }
  }

  /**
  Without a refill in between, exactly as many selections succeed as there are tokens among
  the connected clients, they are the first ones, and once they are spent every connected
  client has been selected exactly as often as its bucket allowed.
  */
  lemma WorkIsConserved(s: State, times: seq<int>)
    requires WellFormed(s) && NoRefillDue(s, times)
    ensures var (t, results) := Selects(s, times);
      && (forall k :: 0 <= k < |times| ==> (results[k].Some? <==> k < Sum(Levels(s))))
      && (|times| >= Sum(Levels(s)) ==> forall i: nat :: i in s.connected ==> CountOf(results, i) == s.buckets[i])
      && (forall i: nat :: i !in s.connected ==> CountOf(results, i) == 0)
  {
    SelectsSpend(s, times);
    var (t, results) := Selects(s, times);
    if |times| >= Sum(Levels(s)) {
      SumZeroIff(Levels(t));
      forall i: nat | i in s.connected
        ensures CountOf(results, i) == s.buckets[i]
      {
        var k :| 0 <= k < |s.connected| && s.connected[k] == i;
        assert Levels(t)[k] == 0;
      }
    }
  }

  // Equal limits

  /** The sequence read from position p round to p again. */
  function Rotated(xs: seq<int>, p: nat): (r: seq<int>)
    requires p < |xs|
    ensures |r| == |xs|
  {
    xs[p..] + xs[..p]
  }

  /** m entries v, then entries v - 1. */
  function Stairs(v: int, m: nat, n: nat): (r: seq<int>)
    ensures |r| == n
  {
    seq(n, k => if k < m then v else v - 1)
  }

  ghost predicate EvenFrom(xs: seq<int>, p: nat) {
    p < |xs| && exists v, m: nat :: 0 < m <= |xs| && Rotated(xs, p) == Stairs(v, m, |xs|)
  }

  /** The position after p among n. */
  function Next(p: nat, n: nat): nat {
    if p + 1 == n then 0 else p + 1
  }

  lemma NextIsModular(p: nat, n: nat)
    requires p < n
    ensures (p + 1) % n == Next(p, n)
  {
  }

  lemma RotateOn(xs: seq<int>, p: nat)
    requires p < |xs|
    ensures Rotated(xs[p := xs[p] - 1], Next(p, |xs|)) == Rotated(xs, p)[1..] + [xs[p] - 1]
  {
  }

  /** Taking one at p and moving on keeps the stairs. */
  lemma EvenStep(xs: seq<int>, p: nat)
    requires EvenFrom(xs, p)
    ensures EvenFrom(xs[p := xs[p] - 1], Next(p, |xs|))
  {
    var v, m: nat :| 0 < m <= |xs| && Rotated(xs, p) == Stairs(v, m, |xs|);
    RotateOn(xs, p);
    assert xs[p] == Rotated(xs, p)[0] == v;
    var next := Rotated(xs[p := v - 1], Next(p, |xs|));
    if m > 1 {
      assert next == Stairs(v, m - 1, |xs|);
    } else {
      assert next == Stairs(v - 1, |xs|, |xs|);
    }
  }

  lemma EvenWhenEqual(xs: seq<int>, p: nat)
    requires p < |xs| && forall k :: 0 <= k < |xs| ==> xs[k] == xs[0]
    ensures EvenFrom(xs, p)
  {
    assert Rotated(xs, p) == Stairs(xs[0], |xs|, |xs|);
  }

  /** In a rotation of stairs the value at p is the largest, and no other is smaller by more than one. */
  lemma EvenBounds(xs: seq<int>, p: nat)
    requires EvenFrom(xs, p)
    ensures forall k :: 0 <= k < |xs| ==> xs[p] - 1 <= xs[k] <= xs[p]
  {
    var v, m: nat :| 0 < m <= |xs| && Rotated(xs, p) == Stairs(v, m, |xs|);
    forall k | 0 <= k < |xs|
      ensures xs[p] - 1 <= xs[k] <= xs[p]
    {
      assert Rotated(xs, p)[0] == xs[p];
      assert Rotated(xs, p)[if k >= p then k - p else |xs| - p + k] == xs[k];
    }
  }

  ghost predicate EqualLimits(s: State) {
    WellFormed(s) && s.connected != [] &&
    forall k :: 0 <= k < |s.connected| ==> s.limits[s.connected[k]] == s.limits[s.connected[0]]
  }

  /** Buckets as a refill leaves them, and as the constructor does: all the same. */
  ghost predicate EqualLevels(s: State) {
    EqualLimits(s) && forall k :: 0 <= k < |s.connected| ==> Levels(s)[k] == Levels(s)[0]
  }

  /** Equal limits and an even rotation: what every selection keeps, refill or not. */
  ghost predicate Even(s: State) {
    EqualLimits(s) && EvenFrom(Levels(s), Cursor(s))
  }

  lemma EvenReady(s: State, now: int)
    requires Even(s)
    ensures Even(Ready(s, now)) && Ready(s, now).index == Cursor(s) && Ready(s, now).limits == s.limits
  {
    var ready := Ready(s, now);
    if NeedsRefill(s, now) {
      assert s.connected[..|s.connected|] == s.connected;
      EvenWhenEqual(Levels(ready), ready.index);
    } else {
      assert Levels(ready) == Levels(s);
    }
  }

  lemma EvenTake(s: State, now: int)
    requires Even(s) && s.index < |s.connected| && Levels(s)[s.index] > 0
    ensures Even(Take(s, s.index, now))
    ensures Take(s, s.index, now).index == Next(s.index, |s.connected|)
  {
    var t := Take(s, s.index, now);
    LevelsAfterTake(s, s.index, now);
    NextIsModular(s.index, |s.connected|);
    EvenStep(Levels(s), s.index);
    assert EvenFrom(Levels(t), t.index);
  }

  /** What a selection finds when rotation is even: the client at the index, or nothing anywhere. */
  lemma EvenChoice(s: State)
    requires Even(s) && s.index < |s.connected|
    ensures Choice(Levels(s), s.index) == if Levels(s)[s.index] > 0 then Some(s.index) else None
  {
    EvenBounds(Levels(s), s.index);
  }

  /** With equal limits a selection takes the client at the index or, when that is empty, none at all. */
  lemma EvenSelect(s: State, now: int)
    requires Even(s)
    ensures var (t, r) := Select(s, now);
      && Even(t) && t.connected == s.connected
      && (r.Some? ==> r.value == s.connected[Cursor(s)] && t.index == Next(Cursor(s), |s.connected|))
      && (r.None? ==> t.index == Cursor(s))
  {
    var ready := Ready(s, now);
    EvenReady(s, now);
    EvenChoice(ready);
    if Levels(ready)[ready.index] > 0 {
      EvenTake(ready, now);
    }
  }

  /** How often each connected client has been selected, counted downwards. */
  ghost function Debits(connected: seq<nat>, results: seq<Option<nat>>): (debits: seq<int>)
    ensures |debits| == |connected|
  {
    seq(|connected|, k requires 0 <= k < |connected| => 0 - CountOf(results, connected[k]) as int)
  }

  lemma DebitsStep(connected: seq<nat>, bound: nat, results: seq<Option<nat>>, p: nat)
    requires Increasing(connected, bound) && p < |connected|
    ensures Debits(connected, results + [Some(connected[p])])
            == Debits(connected, results)[p := Debits(connected, results)[p] - 1]
  {
    forall k | 0 <= k < |connected| {
      CountOfAppend(results, Some(connected[p]), connected[k]);
    }
  }

  /** The position reached from `start` in k steps. */
  function Turn(start: nat, k: nat, n: nat): (p: nat)
    requires start < n
    ensures p < n
  {
    if k == 0 then start else Next(Turn(start, k - 1, n), n)
  }

  lemma NextOfRemainder(x: nat, n: nat)
    requires n > 0
    ensures (x + 1) % n == Next(x % n, n)
  {
    var q, r := x / n, x % n;
    FundamentalDivMod(x, n);
    if r + 1 == n {
      OneMore(q, n);
      DivMod(q + 1, 0, n);
    } else {
      DivMod(q, r + 1, n);
    }
  }

  lemma {:induction false} TurnIsModular(start: nat, k: nat, n: nat)
    requires start < n
    ensures Turn(start, k, n) == (start + k) % n
  {
    if k == 0 {
      SmallMod(start, n);
    } else {
      TurnIsModular(start, k - 1, n);
      NextOfRemainder(start + k - 1, n);
    }
  }

  /** Every success went to the position whose turn it was. */
  ghost predicate InTurn(connected: seq<nat>, start: nat, results: seq<Option<nat>>)
    requires start < |connected|
  {
    forall k :: 0 <= k < |results| && results[k].Some? ==>
      results[k].value == connected[Turn(start, Successes(results[..k]), |connected|)]
  }

  lemma InTurnAppend(connected: seq<nat>, start: nat, results: seq<Option<nat>>, r: Option<nat>)
    requires start < |connected| && InTurn(connected, start, results)
    requires r.Some? ==> r.value == connected[Turn(start, Successes(results), |connected|)]
    ensures InTurn(connected, start, results + [r])
  {
    var all := results + [r];
    forall k | 0 <= k < |all| && all[k].Some?
      ensures all[k].value == connected[Turn(start, Successes(all[..k]), |connected|)]
    {
      if k < |results| {
        assert all[..k] == results[..k];
      } else {
        assert all[..k] == results;
      }
    }
  }

  lemma DebitsAppend(connected: seq<nat>, bound: nat, results: seq<Option<nat>>, p: nat, r: Option<nat>)
    requires Increasing(connected, bound) && EvenFrom(Debits(connected, results), p)
    requires p < |connected| && (r.Some? ==> r.value == connected[p])
    ensures EvenFrom(Debits(connected, results + [r]), if r.Some? then Next(p, |connected|) else p)
  {
    if r.Some? {
      DebitsStep(connected, bound, results, p);
      EvenStep(Debits(connected, results), p);
    } else {
      forall k | 0 <= k < |connected| {
        CountOfAppend(results, r, connected[k]);
      }
      assert Debits(connected, results + [r]) == Debits(connected, results);
    }
  }

  /** How state `t` and the results got there from `s` by even selections. */
  ghost predicate Fair(s: State, t: State, results: seq<Option<nat>>)
    requires Even(s)
  {
    && Even(t) && t.connected == s.connected
    && Cursor(t) == Turn(Cursor(s), Successes(results), |s.connected|)
    && InTurn(s.connected, Cursor(s), results)
    && EvenFrom(Debits(s.connected, results), Cursor(t))
  }

  lemma FairStep(s: State, t: State, results: seq<Option<nat>>, now: int)
    requires Even(s) && Fair(s, t, results)
    ensures Fair(s, Select(t, now).0, results + [Select(t, now).1])
  {
    var r := Select(t, now).1;
    EvenSelect(t, now);
    CountOfAppend(results, r, 0);
    InTurnAppend(s.connected, Cursor(s), results, r);
    DebitsAppend(s.connected, |s.limits|, results, Cursor(t), r);
  }

  lemma {:induction false} EvenSelects(s: State, times: seq<int>)
    requires Even(s)
    ensures Fair(s, Selects(s, times).0, Selects(s, times).1)
  {
    if times == [] {
      EvenWhenEqual(Debits(s.connected, []), Cursor(s));
    } else {
      var last := |times| - 1;
      EvenSelects(s, times[..last]);
      var before := Selects(s, times[..last]);
      FairStep(s, before.0, before.1, times[last]);
    }
  }

  /**
  Clients with equal limits are served in pure rotation, through any number of refills and
  with any clock: the k-th success goes to the k-th position after the start, so nobody
  falls behind anybody else by more than one.
  */
  lemma EqualLimitsRotate(s: State, times: seq<int>)
    requires EqualLevels(s)
    ensures var results := Selects(s, times).1;
      && InTurn(s.connected, Cursor(s), results)
      && (forall i, j :: i in s.connected && j in s.connected ==> CountOf(results, i) <= CountOf(results, j) + 1)
  {
    EvenWhenEqual(Levels(s), Cursor(s));
    EvenSelects(s, times);
    EvenCounts(s.connected, Selects(s, times).1, Cursor(Selects(s, times).0));
  }

  lemma EvenCounts(connected: seq<nat>, results: seq<Option<nat>>, p: nat)
    requires EvenFrom(Debits(connected, results), p)
    ensures forall i, j :: i in connected && j in connected ==> CountOf(results, i) <= CountOf(results, j) + 1
  {
    var debits := Debits(connected, results);
    EvenBounds(debits, p);
    forall i, j | i in connected && j in connected
      ensures CountOf(results, i) <= CountOf(results, j) + 1
    {
      var a :| 0 <= a < |connected| && connected[a] == i;
      var b :| 0 <= b < |connected| && connected[b] == j;
      assert debits[a] == 0 - CountOf(results, i) && debits[b] == 0 - CountOf(results, j);
    }
  }

  /** A freshly started balancer with equal limits is in such a state. */
  lemma StartIsEqual(limits: seq<uint32>, now: int, dialled: set<nat>)
    requires forall i, j :: 0 <= i < j < |limits| ==> limits[i] == limits[j]
    requires BalancerSpec.Start(Fresh(limits), now, dialled).connected != []
    ensures EqualLevels(BalancerSpec.Start(Fresh(limits), now, dialled))
  {
    var s := BalancerSpec.Start(Fresh(limits), now, dialled);
    assert s.buckets == Fresh(limits).buckets && s.limits == limits;
    forall k | 0 <= k < |s.connected|
      ensures limits[s.connected[k]] == limits[s.connected[0]]
    {
      assert k > 0 ==> s.connected[0] < s.connected[k];
    }
  }

  /** So is any balancer with equal limits that has just been refilled. */
  lemma RefillIsEqual(s: State, now: int)
    requires EqualLimits(s) && NeedsRefill(s, now)
    ensures EqualLevels(Ready(s, now))
  {
    assert s.connected[..|s.connected|] == s.connected;
  }
}
