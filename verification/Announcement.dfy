/**
What the comment above selectClient announces (commons/balancer/balancer.go:121-123), and when the
code does it: the first client in turn, counted from the index, that has tokens.
*/
module Announcement {
  import opened Outcomes
  import opened Arithmetic
  import opened BalancerSpec
  import Rotation

  /** The first connected client with tokens, looking from the k-th position after the cursor once around the list. */
  ghost function FirstInTurn(s: State, now: int, k: nat): (r: Option<nat>)
    requires WellFormed(s)
    decreases |s.connected| - k
  {
    if k >= |s.connected| then None
    else
      var i := s.connected[(Cursor(s) + k) % |s.connected|];
      if Tokens(s, now, i) > 0 then Some(i) else FirstInTurn(s, now, k + 1)
  }

  /** A selection at this moment returns the client announced. */
  ghost predicate Follows(s: State, now: int)
    requires WellFormed(s)
  {
    Select(s, now).1 == FirstInTurn(s, now, 0)
  }

  /** Position p is looked at first. */
  lemma LookFrom(s: State, now: int, k: nat, p: nat)
    requires WellFormed(s) && k < |s.connected| && p < |s.connected| && p == (Cursor(s) + k) % |s.connected|
    ensures FirstInTurn(s, now, k) ==
            if Tokens(s, now, s.connected[p]) > 0 then Some(s.connected[p]) else FirstInTurn(s, now, k + 1)
  {
  }

  lemma LookAtCursor(s: State, now: int)
    requires WellFormed(s) && s.connected != []
    ensures var i := s.connected[Cursor(s)];
      FirstInTurn(s, now, 0) == if Tokens(s, now, i) > 0 then Some(i) else FirstInTurn(s, now, 1)
  {
    SmallMod(Cursor(s), |s.connected|);
    LookFrom(s, now, 0, Cursor(s));
  }

  /** Nobody is found in turn when nobody has tokens. */
  lemma {:induction false} NobodyInTurn(s: State, now: int, k: nat)
    requires WellFormed(s) && forall i :: i in s.connected ==> Tokens(s, now, i) == 0
    ensures FirstInTurn(s, now, k) == None
    decreases |s.connected| - k
  {
    if k < |s.connected| {
      NobodyInTurn(s, now, k + 1);
    }
  }

  /** A selection returns the client under the cursor when it has tokens, another one or nobody when it has none. */
  lemma AtCursor(s: State, now: int)
    requires WellFormed(s) && s.connected != []
    ensures var r := Select(s, now).1; var i := s.connected[Cursor(s)];
      if Tokens(s, now, i) > 0 then r == Some(i)
      else r.None? || (r.value in s.connected && r.value != i && Tokens(s, now, r.value) > 0)
  {
    SelectionRule(s, now);
  }

  lemma FollowsWhenNobody(s: State, now: int)
    requires WellFormed(s) && Select(s, now).1 == None
    ensures Follows(s, now)
  {
    SelectionRule(s, now);
    NobodyInTurn(s, now, 0);
  }

  /** With equal limits and nobody coming or going the code always does what is announced. */
  lemma EvenFollows(s: State, now: int)
    requires Rotation.Even(s)
    ensures Follows(s, now)
  {
    if Select(s, now).1 == None {
      FollowsWhenNobody(s, now);
    } else {
      Rotation.EvenSelect(s, now);
      AtCursor(s, now);
      LookAtCursor(s, now);
    }
  }

  /** Past an empty cursor two clients leave no choice. */
  lemma OtherOfTwo(xs: seq<nat>, c: nat, i: nat)
    requires |xs| <= 2 && c < |xs| && i in xs && i != xs[c]
    ensures |xs| == 2 && c <= 1 && i == xs[1 - c] && (c + 1) % |xs| == 1 - c
  {
  }

  lemma OtherFollows(s: State, now: int, i: nat)
    requires WellFormed(s) && |s.connected| <= 2 && i in s.connected && Tokens(s, now, i) > 0
    requires Tokens(s, now, s.connected[Cursor(s)]) == 0
    ensures FirstInTurn(s, now, 0) == Some(i)
  {
    OtherOfTwo(s.connected, Cursor(s), i);
    LookAtCursor(s, now);
    LookFrom(s, now, 1, 1 - Cursor(s));
  }

  lemma TwoFollow(s: State, now: int)
    requires WellFormed(s) && |s.limits| <= 2
    ensures Follows(s, now)
  {
    IncreasingFits(s.connected, |s.limits|);
    var r := Select(s, now).1;
    if r == None {
      FollowsWhenNobody(s, now);
    } else {
      AtCursor(s, now);
      if Tokens(s, now, s.connected[Cursor(s)]) > 0 {
        LookAtCursor(s, now);
      } else {
        OtherFollows(s, now, r.value);
      }
    }
  }

  lemma {:induction false} PlaceIsLower(xs: seq<nat>, bound: nat, k: nat)
    requires Increasing(xs, bound) && k < |xs|
    ensures k <= xs[k]
  {
    if k > 0 {
      PlaceIsLower(xs, bound, k - 1);
    }
  }

  lemma IncreasingFits(xs: seq<nat>, bound: nat)
    requires Increasing(xs, bound)
    ensures |xs| <= bound
  {
    if xs != [] {
      PlaceIsLower(xs, bound, |xs| - 1);
    }
  }

  // Three clients

  /** Clients 1 and 2 come up, client 1 is selected, then client 0 comes up. */
  const LATE_FIRST := [SelectAt(0)] + ([Reconnect({0})] + [])

  /** When only the first three clients may be up, the list is made of those. */
  lemma {:induction false} FirstThree(flags: seq<bool>, n: nat)
    requires 3 <= n <= |flags| && forall i :: 3 <= i < n ==> !flags[i]
    ensures Members(flags, n) ==
            (if flags[0] then [0] else []) + (if flags[1] then [1] else []) + (if flags[2] then [2] else [])
  {
    if n > 3 {
      FirstThree(flags, n - 1);
    } else {
      assert Members(flags, 1) == if flags[0] then [0] else [];
      assert Members(flags, 3) == Members(flags, 2) + if flags[2] then [2] else [];
    }
  }

  /** Clients 1 and 2 up with a token each, client 0 down, the cursor at client 1. */
  ghost predicate FirstIsDown(s: State) {
    && WellFormed(s) && |s.limits| >= 3 && s.connected == [1, 2] && s.index == 0 && s.lastUpdated == 0
    && s.buckets[0] == s.buckets[1] == s.buckets[2] == 1
    && forall i :: 0 <= i < |s.flags| ==> (s.flags[i] <==> 1 <= i <= 2)
  }

  lemma FirstStaysDown(limits: seq<uint32>)
    requires |limits| >= 3 && forall i :: 0 <= i < |limits| ==> limits[i] == 1
    ensures FirstIsDown(BalancerSpec.Start(Fresh(limits), 0, {1, 2}))
  {
    var s := Fresh(limits).(lastUpdated := Truncate(0));
    VisitedFlags(s, {1, 2}, |limits|);
    var flags := Visited(s, {1, 2}, |limits|).flags;
    FirstThree(flags, |limits|);
  }

  /** Selecting empties client 1 and moves the cursor on to client 2. */
  lemma OneIsTaken(s: State)
    requires FirstIsDown(s)
    ensures var t := Select(s, 0).0;
      && t.connected == [1, 2] && t.index == 1 && t.lastUpdated == 0 && t.flags == s.flags
      && t.buckets[0] == 1 && t.buckets[1] == 0 && t.buckets[2] == 1
  {
    SelectionRule(s, 0);
    SelectionEffect(s, 0);
  }

  /** Client 0 takes the first place, which puts the cursor at the empty client 1. */
  lemma FirstComesUp(s: State)
    requires WellFormed(s) && |s.limits| >= 3 && s.connected == [1, 2]
    requires forall i :: 0 <= i < |s.flags| ==> (s.flags[i] <==> 1 <= i <= 2)
    ensures var t := ConnectAll(s, {0});
      t.connected == [0, 1, 2] && t.index == s.index && t.lastUpdated == s.lastUpdated && t.buckets == s.buckets
  {
    VisitedFlags(s, {0}, |s.limits|);
    var flags := Visited(s, {0}, |s.limits|).flags;
    FirstThree(flags, |s.limits|);
  }

  /** There the comment announces client 2 and the code takes client 0. */
  lemma Strays(s: State)
    requires WellFormed(s) && |s.limits| >= 3 && s.connected == [0, 1, 2] && s.index == 1 && s.lastUpdated == 0
    requires s.buckets[0] == 1 && s.buckets[1] == 0 && s.buckets[2] == 1
    ensures Select(s, 0).1 == Some(0) && FirstInTurn(s, 0, 0) == Some(2)
  {
    SelectionRule(s, 0);
    assert s.connected[0] == 0 && s.connected[Cursor(s)] == 1 && s.connected[2] == 2;
    assert Tokens(s, 0, 0) == 1 && Tokens(s, 0, 1) == 0 && Tokens(s, 0, 2) == 1;
    assert 0 in s.connected;
    LookAtCursor(s, 0);
    LookFrom(s, 0, 1, 2);
  }

  lemma LateFirst(s: State) returns (t: State)
    requires FirstIsDown(s)
    ensures t == Run(s, LATE_FIRST) && |t.limits| >= 3
    ensures t.connected == [0, 1, 2] && t.index == 1 && t.lastUpdated == 0
    ensures t.buckets[0] == 1 && t.buckets[1] == 0 && t.buckets[2] == 1
  {
    OneIsTaken(s);
    var taken := Select(s, 0).0;
    FirstComesUp(taken);
    RunOne(s, SelectAt(0), [Reconnect({0})] + []);
    RunOne(taken, Reconnect({0}), []);
    t := ConnectAll(taken, {0});
  }

  /** A selection that does not return the client announced, for any number of clients above two. */
  lemma CommentIsNotFollowed(limits: seq<uint32>)
    requires |limits| >= 3 && forall i :: 0 <= i < |limits| ==> limits[i] == 1
    ensures var s := Run(BalancerSpec.Start(Fresh(limits), 0, {1, 2}), LATE_FIRST);
      Select(s, 0).1 == Some(0) && FirstInTurn(s, 0, 0) == Some(2)
  {
    FirstStaysDown(limits);
    var s := LateFirst(BalancerSpec.Start(Fresh(limits), 0, {1, 2}));
    Strays(s);
  }

  /** A selection after these calls returns the client announced. */
  ghost predicate FollowsAfter(limits: seq<uint32>, start: int, dialled: set<nat>, events: seq<Event>, now: int) {
    Follows(Run(BalancerSpec.Start(Fresh(limits), start, dialled), events), now)
  }

  /** Whatever the limits of n clients and the calls, every selection returns the client announced. */
  ghost predicate CommentHolds(n: nat) {
    forall limits: seq<uint32>, start: int, dialled: set<nat>, events: seq<Event>, now: int :: |limits| == n ==>
      FollowsAfter(limits, start, dialled, events, now)
  }

  lemma TwoFollowAfter(limits: seq<uint32>, start: int, dialled: set<nat>, events: seq<Event>, now: int)
    requires |limits| <= 2
    ensures FollowsAfter(limits, start, dialled, events, now)
  {
    TwoFollow(Run(BalancerSpec.Start(Fresh(limits), start, dialled), events), now);
  }

  lemma StraysAfter(n: nat) returns (limits: seq<uint32>)
    requires n >= 3
    ensures |limits| == n && !FollowsAfter(limits, 0, {1, 2}, LATE_FIRST, 0)
  {
    limits := seq(n, _ => 1);
    CommentIsNotFollowed(limits);
  }

  lemma CommentFails(n: nat)
    requires n >= 3
    ensures !CommentHolds(n)
  {
    var limits := StraysAfter(n);
  }

  lemma CommentHoldsForTwo(n: nat)
    requires n <= 2
    ensures CommentHolds(n)
  {
    forall limits: seq<uint32>, start: int, dialled: set<nat>, events: seq<Event>, now: int | |limits| == n
      ensures FollowsAfter(limits, start, dialled, events, now)
    {
      TwoFollowAfter(limits, start, dialled, events, now);
    }
  }

  /** The comment holds if and only if the balancer has at most two clients. */
  lemma CommentHoldsIff(n: nat)
    ensures CommentHolds(n) <==> n <= 2
  {
    if n <= 2 {
      CommentHoldsForTwo(n);
    } else {
      CommentFails(n);
    }
  }
}
