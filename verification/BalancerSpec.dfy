/**
The client balancer on values: what one call does to the buckets, the rotation
index and the connected list (commons/balancer/balancer.go).

Time is in nanoseconds; a client is named by its position in the list of clients.
The `log` records every selection, bucket refill and status notification, in order.
*/
module BalancerSpec {
  import opened Outcomes

  type uint32 = x: int | 0 <= x < 0x1_0000_0000

  const MAX_INT64 := 0x7FFF_FFFF_FFFF_FFFF
  const SECOND := 1_000_000_000

  datatype Observation =
    | Selected(idx: nat, at: int)
    | Refilled(idx: nat, at: int)
    | Notified(idx: nat, up: bool)

  datatype State = State(
    limits: seq<uint32>,
    flags: seq<bool>,
    buckets: seq<int>,
    connected: seq<nat>,
    index: nat,
    lastUpdated: int,
    log: seq<Observation>)

  /** Rounds down to a whole second. */
  function Truncate(t: int): int {
    t - t % SECOND
  }

  /** What a refill puts into a bucket: a limit of zero stands for no limit. */
  function EffectiveLimit(limit: uint32): int {
    if limit <= 0 then MAX_INT64 else limit
  }

  ghost predicate Increasing(xs: seq<nat>, bound: nat) {
    && (forall a, b :: 0 <= a < b < |xs| ==> xs[a] < xs[b])
    && (forall a :: 0 <= a < |xs| ==> xs[a] < bound)
  }

  /** The connected list is a strictly increasing list of clients, and no bucket is negative. */
  ghost predicate WellFormed(s: State) {
    && |s.flags| == |s.buckets| == |s.limits|
    && Increasing(s.connected, |s.limits|)
    && (forall i :: 0 <= i < |s.buckets| ==> 0 <= s.buckets[i] <= MAX_INT64)
  }

  function Fresh(limits: seq<uint32>): (s: State)
    ensures WellFormed(s)
  {
    State(limits, seq(|limits|, _ => false), seq(|limits|, i requires 0 <= i < |limits| => limits[i]), [], 0, 0, [])
  }

  // Selection

  function Refills(connected: seq<nat>, now: int): seq<Observation> {
    seq(|connected|, k requires 0 <= k < |connected| => Refilled(connected[k], now))
  }

  ghost predicate NeedsRefill(s: State, now: int) {
    now - s.lastUpdated >= SECOND
  }

  /** The state once the first n connected clients have had their bucket refilled. */
  ghost function RefillFirst(s: State, now: int, n: nat): (r: State)
    requires WellFormed(s) && n <= |s.connected|
    ensures WellFormed(r) && r.connected == s.connected
  {
    s.(buckets := seq(|s.limits|, i requires 0 <= i < |s.limits| =>
         if i in s.connected[..n] then EffectiveLimit(s.limits[i]) else s.buckets[i]),
       log := s.log + Refills(s.connected[..n], now))
  }

  /** Sets one bucket and records it. */
  ghost function RefillOne(s: State, i: nat, now: int): (r: State)
    requires WellFormed(s) && i < |s.limits|
    ensures WellFormed(r)
  {
    s.(buckets := s.buckets[i := EffectiveLimit(s.limits[i])], log := s.log + [Refilled(i, now)])
  }

  lemma RefillStep(s: State, now: int, n: nat)
    requires WellFormed(s) && n < |s.connected|
    ensures RefillFirst(s, now, n + 1) == RefillOne(RefillFirst(s, now, n), s.connected[n], now)
  {
    assert s.connected[..n + 1] == s.connected[..n] + [s.connected[n]];
    assert Refills(s.connected[..n + 1], now) == Refills(s.connected[..n], now) + [Refilled(s.connected[n], now)];
  }

  ghost function Refill(s: State, now: int): (r: State)
    requires WellFormed(s)
    ensures WellFormed(r) && r.connected == s.connected
  {
    RefillFirst(s, now, |s.connected|).(lastUpdated := Truncate(now))
  }

  /** The state in which a selection looks for a client: index in range, buckets refilled when a second has passed. */
  ghost function Ready(s: State, now: int): (r: State)
    requires WellFormed(s)
    ensures WellFormed(r)
    ensures r.connected == s.connected
    ensures r.connected == [] || r.index < |r.connected|
  {
    var s := if s.index >= |s.connected| then s.(index := 0) else s;
    if NeedsRefill(s, now) then Refill(s, now) else s
  }

  /** Buckets of the connected clients, in list order. */
  ghost function Levels(s: State): (levels: seq<int>)
    requires WellFormed(s)
    ensures |levels| == |s.connected|
    ensures forall k :: 0 <= k < |levels| ==> 0 <= levels[k] <= MAX_INT64
  {
    seq(|s.connected|, k requires 0 <= k < |s.connected| => s.buckets[s.connected[k]])
  }

  /** The leftmost largest level among those above zero. */
  ghost function Fullest(levels: seq<int>): (r: Option<nat>)
    ensures r.None? <==> forall j :: 0 <= j < |levels| ==> levels[j] <= 0
    ensures r.Some? ==> r.value < |levels| && levels[r.value] > 0
    ensures r.Some? ==> forall j :: 0 <= j < |levels| ==> levels[j] <= levels[r.value]
    ensures r.Some? ==> forall j :: 0 <= j < r.value ==> levels[j] < levels[r.value]
  {
    if levels == [] then None
    else
      var last := |levels| - 1;
      var before := Fullest(levels[..last]);
      if levels[last] > (if before.Some? then levels[before.value] else 0) then Some(last) else before
  }

  /** The position a selection takes: the one at the index when it has tokens, else the fullest. */
  ghost function Choice(levels: seq<int>, index: nat): (r: Option<nat>)
    requires levels == [] || index < |levels|
    ensures r.None? <==> forall j :: 0 <= j < |levels| ==> levels[j] <= 0
    ensures r.Some? ==> r.value < |levels| && levels[r.value] > 0
  {
    if levels != [] && levels[index] > 0 then Some(index) else Fullest(levels)
  }

  /** Only a client found at the index moves the index on. */
  ghost function NextIndex(levels: seq<int>, index: nat): nat
    requires index < |levels|
  {
    if levels[index] > 0 then (index + 1) % |levels| else index
  }

  ghost function Take(s: State, p: nat, now: int): (t: State)
    requires WellFormed(s)
    requires s.index < |s.connected| && p < |s.connected| && s.buckets[s.connected[p]] > 0
    ensures WellFormed(t)
  {
    var i := s.connected[p];
    s.(buckets := s.buckets[i := s.buckets[i] - 1],
       index := NextIndex(Levels(s), s.index),
       log := s.log + [Selected(i, now)])
  }

  ghost function Select(s: State, now: int): (r: (State, Option<nat>))
    requires WellFormed(s)
    ensures WellFormed(r.0)
    ensures r.1.Some? ==> r.1.value in s.connected && r.1.value < |s.limits|
  {
    var ready := Ready(s, now);
    match Choice(Levels(ready), ready.index)
    case None => (ready, None)
    case Some(p) => (Take(ready, p, now), Some(ready.connected[p]))
  }

  /** The position a selection looks at first. */
  function Cursor(s: State): nat {
    if s.index >= |s.connected| then 0 else s.index
  }

  /** The tokens a connected client has when a selection at time `now` looks at it. */
  ghost function Tokens(s: State, now: int, i: nat): int
    requires WellFormed(s) && i < |s.limits|
  {
    if NeedsRefill(s, now) then EffectiveLimit(s.limits[i]) else s.buckets[i]
  }

  /** Client i is the one a selection owes its turn: the one under the cursor, else the first of those with most tokens. */
  ghost predicate Preferred(s: State, now: int, i: nat)
    requires WellFormed(s)
  {
    && i in s.connected && Tokens(s, now, i) > 0
    && if Tokens(s, now, s.connected[Cursor(s)]) > 0 then i == s.connected[Cursor(s)]
       else forall j :: j in s.connected ==>
         Tokens(s, now, j) <= Tokens(s, now, i) && (j < i ==> Tokens(s, now, j) < Tokens(s, now, i))
  }

  lemma LevelsAreTokens(s: State, now: int)
    requires WellFormed(s)
    ensures var levels := Levels(Ready(s, now));
      && |levels| == |s.connected|
      && forall k :: 0 <= k < |levels| ==> levels[k] == Tokens(s, now, s.connected[k])
  {
    ReadyRule(s, now);
  }

  /** The leftmost fullest position holds the first of the clients with most tokens. */
  lemma FullestIsPreferred(s: State, now: int, p: nat)
    requires WellFormed(s) && Fullest(Levels(Ready(s, now))) == Some(p)
    requires Tokens(s, now, s.connected[Cursor(s)]) == 0
    ensures p < |s.connected| && Preferred(s, now, s.connected[p])
  {
    var levels := Levels(Ready(s, now));
    LevelsAreTokens(s, now);
    var chosen := s.connected[p];
    forall j | j in s.connected
      ensures Tokens(s, now, j) <= Tokens(s, now, chosen) && (j < chosen ==> Tokens(s, now, j) < Tokens(s, now, chosen))
    {
      var k :| 0 <= k < |s.connected| && s.connected[k] == j;
      assert levels[k] == Tokens(s, now, j) && levels[p] == Tokens(s, now, chosen);
    }
  }

  /** A selection returns the preferred client, and nobody only if nobody connected has a token. */
  lemma SelectionRule(s: State, now: int)
    requires WellFormed(s)
    ensures var r := Select(s, now).1;
      if r.Some? then Preferred(s, now, r.value) else forall i :: i in s.connected ==> Tokens(s, now, i) == 0
  {
    var ready := Ready(s, now);
    var levels := Levels(ready);
    ReadyRule(s, now);
    LevelsAreTokens(s, now);
    var p := Choice(levels, ready.index);
    if p.None? {
      forall i | i in s.connected
        ensures Tokens(s, now, i) == 0
      {
        var k :| 0 <= k < |s.connected| && s.connected[k] == i;
        assert levels[k] == Tokens(s, now, i);
      }
    } else if levels[ready.index] <= 0 {
      FullestIsPreferred(s, now, p.value);
    }
  }

  /**
  What a selection changes: connected clients are refilled when due, the client returned pays one
  token, clients that are not connected keep their buckets, and only a client found under the
  cursor moves it on.
  */
  lemma SelectionEffect(s: State, now: int)
    requires WellFormed(s)
    ensures var (t, r) := Select(s, now);
      && (forall i: nat :: i < |s.limits| ==>
        t.buckets[i] == (if i in s.connected then Tokens(s, now, i) else s.buckets[i]) - if r == Some(i) then 1 else 0)
      && t.index == (if r.Some? && Tokens(s, now, s.connected[Cursor(s)]) > 0
                     then (Cursor(s) + 1) % |s.connected| else Cursor(s))
      && t.lastUpdated == (if NeedsRefill(s, now) then Truncate(now) else s.lastUpdated)
      && t.connected == s.connected && t.flags == s.flags && t.limits == s.limits
  {
    var ready := Ready(s, now);
    ReadyRule(s, now);
    assert ready.connected != [] ==> Levels(ready)[ready.index] == Tokens(s, now, s.connected[Cursor(s)]);
  }

  lemma ReadyRule(s: State, now: int)
    requires WellFormed(s)
    ensures var r := Ready(s, now);
      && r.index == Cursor(s) && r.connected == s.connected && r.flags == s.flags && r.limits == s.limits
      && (forall i: nat :: i < |s.limits| ==> r.buckets[i] == if i in s.connected then Tokens(s, now, i) else s.buckets[i])
      && r.lastUpdated == (if NeedsRefill(s, now) then Truncate(now) else s.lastUpdated)
  {
    assert s.connected[..|s.connected|] == s.connected;
  }

  // Membership

  /** The list without its entry for client i. */
  ghost function Without(xs: seq<nat>, i: nat): (ys: seq<nat>)
    ensures i !in xs ==> ys == xs
  {
    if xs == [] then [] else if xs[0] == i then xs[1..] else [xs[0]] + Without(xs[1..], i)
  }

  lemma {:induction false} WithoutAt(xs: seq<nat>, p: nat)
    requires p < |xs|
    requires forall a :: 0 <= a < p ==> xs[a] != xs[p]
    ensures Without(xs, xs[p]) == xs[..p] + xs[p + 1..]
  {
    if p > 0 {
      WithoutAt(xs[1..], p - 1);
      assert [xs[0]] + (xs[1..][..p - 1] + xs[1..][p..]) == xs[..p] + xs[p + 1..];
    }
  }

  lemma WithoutKeepsOrder(xs: seq<nat>, i: nat, bound: nat)
    requires Increasing(xs, bound)
    ensures Increasing(Without(xs, i), bound)
    ensures forall j :: j in Without(xs, i) <==> j in xs && j != i
  {
    if p: nat :| p < |xs| && xs[p] == i {
      WithoutAt(xs, p);
      RemovedAt(xs, p, bound);
    }
  }

  lemma RemovedAt(xs: seq<nat>, p: nat, bound: nat)
    requires Increasing(xs, bound) && p < |xs|
    ensures Increasing(xs[..p] + xs[p + 1..], bound)
    ensures forall j :: j in xs[..p] + xs[p + 1..] <==> j in xs && j != xs[p]
  {
    var rest := xs[..p] + xs[p + 1..];
    assert forall a :: 0 <= a < |rest| ==> rest[a] == xs[if a < p then a else a + 1];
    forall j | j in xs && j != xs[p]
      ensures j in rest
    {
      var a :| 0 <= a < |xs| && xs[a] == j;
      assert rest[if a < p then a else a - 1] == j;
    }
  }

  ghost function Disconnect(s: State, i: nat): (r: State)
    requires WellFormed(s)
    ensures WellFormed(r)
  {
    if i in s.connected then
      WithoutKeepsOrder(s.connected, i, |s.limits|);
      s.(connected := Without(s.connected, i),
         flags := s.flags[i := false],
         log := s.log + [Notified(i, false)])
    else s
  }

  lemma DisconnectAt(s: State, p: nat)
    requires WellFormed(s) && p < |s.connected|
    ensures var i := s.connected[p];
      Disconnect(s, i) == s.(
        connected := s.connected[..p] + s.connected[p + 1..],
        flags := s.flags[i := false],
        log := s.log + [Notified(i, false)])
  {
    WithoutAt(s.connected, p);
  }

  /** The clients among the first n whose flag is set, in order. */
  ghost function Members(flags: seq<bool>, n: nat): (members: seq<nat>)
    requires n <= |flags|
  {
    if n == 0 then []
    else Members(flags, n - 1) + (if flags[n - 1] then [n - 1] else [])
  }

  lemma {:induction false} MembersInOrder(flags: seq<bool>, n: nat)
    requires n <= |flags|
    ensures Increasing(Members(flags, n), n)
    ensures forall i: nat :: i in Members(flags, n) <==> i < n && flags[i]
  {
    if n > 0 {
      MembersInOrder(flags, n - 1);
    }
  }

  lemma {:induction false} NobodyUp(flags: seq<bool>, n: nat)
    requires n <= |flags| && forall i :: 0 <= i < n ==> !flags[i]
    ensures Members(flags, n) == []
  {
    if n > 0 {
      NobodyUp(flags, n - 1);
    }
  }

  lemma {:induction false} MembersDependOnPrefix(f: seq<bool>, g: seq<bool>, n: nat)
    requires n <= |f| && n <= |g|
    requires forall i :: 0 <= i < n ==> f[i] == g[i]
    ensures Members(f, n) == Members(g, n)
  {
    if n > 0 {
      MembersDependOnPrefix(f, g, n - 1);
    }
  }

  lemma {:induction false} MembersWithout(flags: seq<bool>, i: nat, n: nat)
    requires i < |flags| && n <= |flags|
    ensures Members(flags[i := false], n) == Without(Members(flags, n), i)
  {
    if n > 0 {
      var before := Members(flags, n - 1);
      MembersWithout(flags, i, n - 1);
      if flags[n - 1] {
        if i == n - 1 {
          MembersInOrder(flags, n - 1);
          WithoutLast(before, i);
        } else {
          WithoutAppend(before, n - 1, i);
        }
      } else {
        assert Members(flags, n) == before;
        assert Members(flags[i := false], n) == Members(flags[i := false], n - 1);
      }
    }
  }

  lemma {:induction false} WithoutAppend(xs: seq<nat>, x: nat, i: nat)
    requires i != x
    ensures Without(xs + [x], i) == Without(xs, i) + [x]
  {
    if xs == [] {
      assert xs + [x] == [x];
    } else {
      assert (xs + [x])[1..] == xs[1..] + [x];
      WithoutAppend(xs[1..], x, i);
    }
  }

  lemma WithoutLast(xs: seq<nat>, i: nat)
    requires i !in xs
    ensures Without(xs + [i], i) == xs
  {
    WithoutAt(xs + [i], |xs|);
  }

  /** What visiting one client in a connection round does to it: a client that is down may come up. */
  ghost function Visit(s: State, i: nat, dialled: set<nat>): (r: State)
    requires WellFormed(s) && i < |s.limits|
    ensures WellFormed(r)
  {
    if !s.flags[i] && i in dialled then s.(flags := s.flags[i := true], log := s.log + [Notified(i, true)]) else s
  }

  /** The state once the clients below n have been visited. */
  ghost function Visited(s: State, dialled: set<nat>, n: nat): (r: State)
    requires WellFormed(s) && n <= |s.limits|
    ensures WellFormed(r)
    ensures r == s.(flags := r.flags, log := r.log)
  {
    if n == 0 then s else Visit(Visited(s, dialled, n - 1), n - 1, dialled)
  }

  /** Visiting sets the flags of the clients dialled and no others. */
  lemma {:induction false} VisitedFlags(s: State, dialled: set<nat>, n: nat)
    requires WellFormed(s) && n <= |s.limits|
    ensures forall i :: 0 <= i < |s.limits| ==>
      Visited(s, dialled, n).flags[i] == (s.flags[i] || (i < n && i in dialled))
  {
    if n > 0 {
      VisitedFlags(s, dialled, n - 1);
    }
  }

  lemma MembersAfterVisit(s: State, dialled: set<nat>, n: nat)
    requires WellFormed(s) && n < |s.limits|
    ensures Members(Visited(s, dialled, n + 1).flags, n + 1) ==
            Members(Visited(s, dialled, n).flags, n) +
            (if Visited(s, dialled, n + 1).flags[n] then [n] else [])
  {
    VisitedFlags(s, dialled, n);
    VisitedFlags(s, dialled, n + 1);
    MembersDependOnPrefix(Visited(s, dialled, n + 1).flags, Visited(s, dialled, n).flags, n);
  }

  /** One whole connection round with nothing in between; `dialled` are the clients whose dial would succeed. */
  ghost function ConnectAll(s: State, dialled: set<nat>): (r: State)
    requires WellFormed(s)
    ensures WellFormed(r)
  {
    if |s.limits| == |s.connected| then s
    else
      var visited := Visited(s, dialled, |s.limits|);
      MembersInOrder(visited.flags, |s.limits|);
      visited.(connected := Members(visited.flags, |s.limits|))
  }

  ghost function Start(s: State, now: int, dialled: set<nat>): (r: State)
    requires WellFormed(s)
    ensures WellFormed(r)
  {
    ConnectAll(s.(lastUpdated := Truncate(now)), dialled)
  }

  // Runs in which every call is one step

  datatype Event = SelectAt(now: int) | DisconnectOf(idx: nat) | Reconnect(dialled: set<nat>)

  ghost function Apply(s: State, e: Event): (r: State)
    requires WellFormed(s)
    ensures WellFormed(r) && r.limits == s.limits
  {
    match e
    case SelectAt(now) => Select(s, now).0
    case DisconnectOf(i) => Disconnect(s, i)
    case Reconnect(dialled) => ConnectAll(s, dialled)
  }

  ghost function Run(s: State, events: seq<Event>): (r: State)
    requires WellFormed(s)
    ensures WellFormed(r) && r.limits == s.limits
    decreases |events|
  {
    if events == [] then s else Run(Apply(s, events[0]), events[1..])
  }

  lemma RunOne(s: State, e: Event, rest: seq<Event>)
    requires WellFormed(s)
    ensures Run(s, [e] + rest) == Run(Apply(s, e), rest)
  {
    assert ([e] + rest)[1..] == rest;
  }

  lemma {:induction false} RunAppend(s: State, events: seq<Event>, more: seq<Event>)
    requires WellFormed(s)
    ensures Run(s, events + more) == Run(Run(s, events), more)
    decreases |events|
  {
    if events == [] {
      assert events + more == more;
    } else {
      assert (events + more)[1..] == events[1..] + more;
      RunAppend(Apply(s, events[0]), events[1..], more);
    }
  }
}
