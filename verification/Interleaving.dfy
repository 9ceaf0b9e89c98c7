/**
The balancer with its reconnect loop running beside the callers. A connection
round takes no lock until it publishes, so it is split into one step per client
visit and one per dial; selections and disconnects hold the lock and are single steps.
*/
module Interleaving {
  import opened BalancerSpec

  /** Where the reconnect loop is: between rounds, about to look at a client, or waiting for its dial. */
  datatype Phase =
    | Idle
    | Scanning(pos: nat, found: seq<nat>)
    | Dialling(pos: nat, found: seq<nat>)

  datatype World = World(core: State, phase: Phase)

  /** `Tick(up)` is the next step of the reconnect loop, `up` the outcome if it is a dial. */
  datatype Move = Tick(up: bool) | Selecting(now: int) | Dropping(idx: nat)

  ghost predicate Safe(w: World) {
    && WellFormed(w.core)
    && match w.phase
       case Idle => true
       case Scanning(pos, found) => pos <= |w.core.limits| && Increasing(found, pos)
       case Dialling(pos, found) => pos < |w.core.limits| && Increasing(found, pos) && !w.core.flags[pos]
  }

  ghost function Step(w: World, m: Move): (r: World)
    requires Safe(w)
    ensures Safe(r) && r.core.limits == w.core.limits
  {
    match m
    case Selecting(now) => w.(core := Select(w.core, now).0)
    case Dropping(i) => w.(core := Disconnect(w.core, i))
    case Tick(up) => TickStep(w, up)
  }

  ghost function TickStep(w: World, up: bool): (r: World)
    requires Safe(w)
    ensures Safe(r) && r.core.limits == w.core.limits
  {
    var s := w.core;
    match w.phase
    case Idle =>
      if |s.limits| == |s.connected| then w else w.(phase := Scanning(0, []))
    case Scanning(pos, found) =>
      if pos == |s.limits| then World(s.(connected := found), Idle)
      else if s.flags[pos] then w.(phase := Scanning(pos + 1, found + [pos]))
      else w.(phase := Dialling(pos, found))
    case Dialling(pos, found) =>
      if up then
        World(s.(flags := s.flags[pos := true], log := s.log + [Notified(pos, true)]),
              Scanning(pos + 1, found + [pos]))
      else w.(phase := Scanning(pos + 1, found))
  }

  ghost function Moves(w: World, ms: seq<Move>): (r: World)
    requires Safe(w)
    ensures Safe(r) && r.core.limits == w.core.limits
    decreases |ms|
  {
    if ms == [] then w else Moves(Step(w, ms[0]), ms[1..])
  }

  /** The balancer as `Start` leaves it, with the first connection round still to come. */
  ghost function Launch(limits: seq<uint32>, now: int): (w: World)
    ensures Safe(w)
  {
    World(Fresh(limits).(lastUpdated := Truncate(now)), Idle)
  }

  lemma {:induction false} MovesAppend(w: World, ms: seq<Move>, more: seq<Move>)
    requires Safe(w)
    ensures Moves(w, ms + more) == Moves(Moves(w, ms), more)
    decreases |ms|
  {
    if ms == [] {
      assert ms + more == more;
    } else {
      assert (ms + more)[1..] == ms[1..] + more;
      MovesAppend(Step(w, ms[0]), ms[1..], more);
    }
  }

  /** Moves made one after the other. */
  lemma Chained(w: World, ms: seq<Move>, mid: World, more: seq<Move>, end: World)
    requires Safe(w) && Moves(w, ms) == mid && Moves(mid, more) == end
    ensures Moves(w, ms + more) == end
  {
    MovesAppend(w, ms, more);
  }

  lemma OneMove(w: World, m: Move, rest: seq<Move>)
    requires Safe(w)
    ensures Moves(w, [m] + rest) == Moves(Step(w, m), rest)
  {
    assert ([m] + rest)[1..] == rest;
  }

  // No live connection is lost

  /** Every client flagged connected is in the list that will be current once the round publishes. */
  ghost predicate NothingLost(w: World)
    requires Safe(w)
  {
    forall i: nat :: i < |w.core.flags| && w.core.flags[i] ==>
      if w.phase.Idle? || i >= w.phase.pos then i in w.core.connected else i in w.phase.found
  }

  lemma NothingLostStep(w: World, m: Move)
    requires Safe(w) && NothingLost(w)
    ensures NothingLost(Step(w, m))
  {
    match m
    case Selecting(now) =>
    case Dropping(i) =>
      WithoutKeepsOrder(w.core.connected, i, |w.core.limits|);
    case Tick(up) =>
  }

  lemma {:induction false} NothingIsEverLost(w: World, ms: seq<Move>)
    requires Safe(w) && NothingLost(w)
    ensures NothingLost(Moves(w, ms))
    decreases |ms|
  {
    if ms != [] {
      NothingLostStep(w, ms[0]);
      NothingIsEverLost(Step(w, ms[0]), ms[1..]);
    }
  }

  /**
  In every interleaving, the connected list is a duplicate-free list of clients in
  index order, and whenever no round is under way it holds every client flagged connected.
  */
  lemma InterleavingIsSafe(limits: seq<uint32>, now: int, ms: seq<Move>)
    ensures var w := Moves(Launch(limits, now), ms);
      && Increasing(w.core.connected, |limits|)
      && NothingLost(w)
      && (w.phase.Idle? ==> forall i: nat :: i < |limits| && w.core.flags[i] ==> i in w.core.connected)
  {
    NothingIsEverLost(Launch(limits, now), ms);
  }

  // When the list holds nothing else

  /** The list that is current, or will be once the round publishes, agrees with the flags. */
  ghost predicate InSync(w: World)
    requires Safe(w)
  {
    if w.phase.Idle? then w.core.connected == Members(w.core.flags, |w.core.flags|)
    else w.phase.found == Members(w.core.flags, w.phase.pos)
  }

  /** A disconnect of a current member that the round under way has already put into its new list. */
  ghost predicate Races(w: World, m: Move) {
    m.Dropping? && !w.phase.Idle? && m.idx in w.core.connected && m.idx in w.phase.found
  }

  ghost predicate RaceFree(w: World, ms: seq<Move>)
    requires Safe(w)
    decreases |ms|
  {
    ms == [] || (!Races(w, ms[0]) && RaceFree(Step(w, ms[0]), ms[1..]))
  }

  lemma InSyncStep(w: World, m: Move)
    requires Safe(w) && InSync(w) && !Races(w, m)
    ensures InSync(Step(w, m))
  {
    var s := w.core;
    match m
    case Selecting(now) =>
    case Dropping(i) =>
      if i in s.connected {
        MembersWithout(s.flags, i, if w.phase.Idle? then |s.flags| else w.phase.pos);
      }
    case Tick(up) =>
      if w.phase.Dialling? && up {
        MembersDependOnPrefix(s.flags, s.flags[w.phase.pos := true], w.phase.pos);
      }
  }

  /** In an interleaving without such a race, the connected list is exactly the flagged clients between rounds. */
  lemma {:induction false} RaceFreeStaysInSync(w: World, ms: seq<Move>)
    requires Safe(w) && InSync(w) && RaceFree(w, ms)
    ensures InSync(Moves(w, ms))
    decreases |ms|
  {
    if ms != [] {
      InSyncStep(w, ms[0]);
      RaceFreeStaysInSync(Step(w, ms[0]), ms[1..]);
    }
  }

  /** Client i has been put into the new list but is flagged down: nothing in this round can repair that. */
  ghost predicate Stale(w: World, i: nat)
    requires Safe(w)
  {
    !w.phase.Idle? && i in w.phase.found && !w.core.flags[i]
  }

  /** From inside a round, the moves end with the step that publishes it and no earlier. */
  ghost predicate RestOfRound(w: World, ms: seq<Move>)
    requires Safe(w)
    decreases |ms|
  {
    && !w.phase.Idle?
    && ms != []
    && (if |ms| == 1 then Step(w, ms[0]).phase.Idle? else RestOfRound(Step(w, ms[0]), ms[1..]))
  }

  lemma {:induction false} StaleIsPublished(w: World, ms: seq<Move>, i: nat)
    requires Safe(w) && Stale(w, i) && RestOfRound(w, ms)
    ensures i in Moves(w, ms).core.connected && !Moves(w, ms).core.flags[i]
    decreases |ms|
  {
    var next := Step(w, ms[0]);
    if |ms| == 1 {
      assert Moves(w, ms) == Moves(next, []) == next;
    } else {
      assert Stale(next, i);
      StaleIsPublished(next, ms[1..], i);
    }
  }

  lemma RaceMakesStale(w: World, m: Move)
    requires Safe(w) && Races(w, m)
    ensures Stale(Step(w, m), m.idx)
  {
  }

  /** In a round with a race, some client is published that is flagged down. */
  lemma {:induction false} RacedRoundPublishesStale(w: World, ms: seq<Move>) returns (i: nat)
    requires Safe(w) && RestOfRound(w, ms) && !RaceFree(w, ms)
    ensures i in Moves(w, ms).core.connected && !Moves(w, ms).core.flags[i]
    decreases |ms|
  {
    var next := Step(w, ms[0]);
    if Races(w, ms[0]) {
      i := ms[0].idx;
      RaceMakesStale(w, ms[0]);
      StaleIsPublished(next, ms[1..], i);
    } else {
      assert !RaceFree(next, ms[1..]);
      i := RacedRoundPublishesStale(next, ms[1..]);
    }
  }

  /**
  A round leaves the connected list equal to the flagged clients if and only if no
  member it had already copied was disconnected before it published.
  */
  lemma RoundInSyncIff(w: World, ms: seq<Move>)
    requires Safe(w) && w.phase == Scanning(0, []) && RestOfRound(w, ms)
    ensures InSync(Moves(w, ms)) <==> RaceFree(w, ms)
  {
    EndsIdle(w, ms);
    if RaceFree(w, ms) {
      RaceFreeStaysInSync(w, ms);
    } else {
      var i := RacedRoundPublishesStale(w, ms);
      var end := Moves(w, ms).core;
      MembersInOrder(end.flags, |end.flags|);
    }
  }

  lemma {:induction false} EndsIdle(w: World, ms: seq<Move>)
    requires Safe(w) && RestOfRound(w, ms)
    ensures Moves(w, ms).phase.Idle?
    decreases |ms|
  {
    var next := Step(w, ms[0]);
    if |ms| == 1 {
      assert Moves(w, ms) == Moves(next, []) == next;
    } else {
      EndsIdle(next, ms[1..]);
    }
  }

  /** Two clients, of which only the first comes up. */
  const FIRST_ROUND := [Tick(false), Tick(false), Tick(true), Tick(false), Tick(false), Tick(false)]

  /** The first client is disconnected while the second is being dialled. */
  const RACING_ROUND := [Tick(false), Tick(false), Dropping(0), Tick(false), Tick(true), Tick(false)]

  lemma FirstRound(w: World)
    requires Safe(w) && |w.core.limits| == 2
    requires w.phase == Idle && w.core.connected == [] && w.core.flags == [false, false]
    ensures var r := Moves(w, FIRST_ROUND);
      r.phase == Idle && r.core.connected == [0] && r.core.flags == [true, false]
  {
    Six(w, FIRST_ROUND);
    var w3 := Step(Step(Step(w, Tick(false)), Tick(false)), Tick(true));
    assert w3.phase == Scanning(1, [0]) && w3.core.flags == [true, false];
    var w5 := Step(Step(w3, Tick(false)), Tick(false));
    assert w5.phase == Scanning(2, [0]);
  }

  lemma RacingRound(w: World)
    requires Safe(w) && |w.core.limits| == 2
    requires w.phase == Idle && w.core.connected == [0] && w.core.flags == [true, false]
    ensures var r := Moves(w, RACING_ROUND);
      r.phase == Idle && r.core.connected == [0, 1] && r.core.flags == [false, true]
  {
    Six(w, RACING_ROUND);
    StartOfRace(w);
    EndOfRace(Step(Step(Step(w, Tick(false)), Tick(false)), Dropping(0)));
  }

  lemma StartOfRace(w: World)
    requires Safe(w) && |w.core.limits| == 2
    requires w.phase == Idle && w.core.connected == [0] && w.core.flags == [true, false]
    ensures var r := Step(Step(Step(w, Tick(false)), Tick(false)), Dropping(0));
      r.phase == Scanning(1, [0]) && r.core.flags == [false, false]
  {
    assert Step(Step(w, Tick(false)), Tick(false)) == w.(phase := Scanning(1, [0]));
  }

  lemma EndOfRace(w: World)
    requires Safe(w) && |w.core.limits| == 2
    requires w.phase == Scanning(1, [0]) && w.core.flags == [false, false]
    ensures var r := Step(Step(Step(w, Tick(false)), Tick(true)), Tick(false));
      r.phase == Idle && r.core.connected == [0, 1] && r.core.flags == [false, true]
  {
    var w2 := Step(Step(w, Tick(false)), Tick(true));
    assert w2.phase == Scanning(2, [0, 1]) && w2.core.flags == [false, true];
  }

  /**
  Between rounds, while the list is as long as the list of clients, the loop does nothing. So a
  member that is flagged down stays listed and down, whatever is selected, until some client is
  disconnected.
  */
  lemma {:induction false} FullListIsNotRepaired(w: World, ms: seq<Move>)
    requires Safe(w) && w.phase == Idle && |w.core.connected| == |w.core.limits|
    requires forall k :: 0 <= k < |ms| ==> !ms[k].Dropping?
    ensures Moves(w, ms).phase == Idle
    ensures Moves(w, ms).core.connected == w.core.connected && Moves(w, ms).core.flags == w.core.flags
    decreases |ms|
  {
    if ms != [] {
      if ms[0].Selecting? {
        SelectionEffect(w.core, ms[0].now);
      }
      FullListIsNotRepaired(Step(w, ms[0]), ms[1..]);
    }
  }

  lemma AfterBothRounds(limits: seq<uint32>, now: int)
    requires |limits| == 2
    ensures var w := Moves(Launch(limits, now), FIRST_ROUND + RACING_ROUND);
      w.phase == Idle && w.core.connected == [0, 1] && w.core.flags == [false, true]
  {
    var w0 := Launch(limits, now);
    assert w0.core.flags == [false, false];
    MovesAppend(w0, FIRST_ROUND, RACING_ROUND);
    FirstRound(w0);
    RacingRound(Moves(w0, FIRST_ROUND));
  }

  /**
  Such a race can leave a dead client in the list for good: both clients are then listed, so the
  loop never dials client 0 again, in any continuation without a disconnect.
  */
  lemma StaleMemberBlocksReconnect(limits: seq<uint32>, now: int, ms: seq<Move>)
    requires |limits| == 2
    requires forall k :: 0 <= k < |ms| ==> !ms[k].Dropping?
    ensures var w := Moves(Launch(limits, now), FIRST_ROUND + RACING_ROUND + ms);
      w.phase == Idle && 0 in w.core.connected && !w.core.flags[0]
  {
    AfterBothRounds(limits, now);
    MovesAppend(Launch(limits, now), FIRST_ROUND + RACING_ROUND, ms);
    FullListIsNotRepaired(Moves(Launch(limits, now), FIRST_ROUND + RACING_ROUND), ms);
  }

  lemma Three(w: World, ms: seq<Move>)
    requires Safe(w) && |ms| == 3
    ensures Moves(w, ms) == Step(Step(Step(w, ms[0]), ms[1]), ms[2])
  {
    assert ms == [ms[0]] + ([ms[1]] + ([ms[2]] + []));
    var w1 := Step(w, ms[0]);
    OneMove(w, ms[0], [ms[1]] + ([ms[2]] + []));
    OneMove(w1, ms[1], [ms[2]] + []);
    OneMove(Step(w1, ms[1]), ms[2], []);
  }

  lemma Six(w: World, ms: seq<Move>)
    requires Safe(w) && |ms| == 6
    ensures Moves(w, ms) == Step(Step(Step(Step(Step(Step(w, ms[0]), ms[1]), ms[2]), ms[3]), ms[4]), ms[5])
  {
    assert ms == ms[..3] + ms[3..];
    MovesAppend(w, ms[..3], ms[3..]);
    Three(w, ms[..3]);
    Three(Moves(w, ms[..3]), ms[3..]);
  }

  // A round with nothing in between is one atomic step

  /** The loop's own steps for one client: the look, and the dial if the client is down. */
  ghost function VisitTicks(s: State, dialled: set<nat>, pos: nat): seq<Move>
    requires WellFormed(s) && pos < |s.limits|
  {
    if s.flags[pos] then [Tick(false)] else [Tick(false), Tick(pos in dialled)]
  }

  /** Its steps for the clients from `pos` on, then the publish. */
  ghost function RoundTicks(s: State, dialled: set<nat>, pos: nat): seq<Move>
    requires WellFormed(s) && pos <= |s.limits|
    decreases |s.limits| - pos
  {
    if pos == |s.limits| then [Tick(false)] else VisitTicks(s, dialled, pos) + RoundTicks(s, dialled, pos + 1)
  }

  /** The end of a round that nothing disturbed. */
  ghost function RoundEnd(s: State, dialled: set<nat>): World
    requires WellFormed(s)
  {
    var v := Visited(s, dialled, |s.limits|);
    World(v.(connected := Members(v.flags, |s.limits|)), Idle)
  }

  /** The loop about to look at client `pos`, having visited the ones before it undisturbed. */
  ghost function AtClient(s: State, dialled: set<nat>, pos: nat): (w: World)
    requires WellFormed(s) && pos <= |s.limits|
    ensures Safe(w)
  {
    var here := Visited(s, dialled, pos);
    MembersInOrder(here.flags, pos);
    World(here, Scanning(pos, Members(here.flags, pos)))
  }

  lemma VisitByTicks(s: State, dialled: set<nat>, pos: nat)
    requires WellFormed(s) && pos < |s.limits|
    ensures Moves(AtClient(s, dialled, pos), VisitTicks(s, dialled, pos)) == AtClient(s, dialled, pos + 1)
  {
    var w := AtClient(s, dialled, pos);
    MembersAfterVisit(s, dialled, pos);
    VisitedFlags(s, dialled, pos);
    if s.flags[pos] {
      OneMove(w, Tick(false), []);
    } else {
      var found := w.phase.found;
      assert found + [] == found;
      assert VisitTicks(s, dialled, pos) == [Tick(false)] + ([Tick(pos in dialled)] + []);
      OneMove(w, Tick(false), [Tick(pos in dialled)] + []);
      OneMove(Step(w, Tick(false)), Tick(pos in dialled), []);
    }
  }

  lemma PublishByTick(s: State, dialled: set<nat>)
    requires WellFormed(s)
    ensures Moves(AtClient(s, dialled, |s.limits|), [Tick(false)]) == RoundEnd(s, dialled)
  {
    assert [Tick(false)] + [] == [Tick(false)];
    OneMove(AtClient(s, dialled, |s.limits|), Tick(false), []);
  }

  lemma {:induction false} UninterruptedFrom(s: State, dialled: set<nat>, pos: nat)
    requires WellFormed(s) && pos <= |s.limits|
    ensures Moves(AtClient(s, dialled, pos), RoundTicks(s, dialled, pos)) == RoundEnd(s, dialled)
    decreases |s.limits| - pos
  {
    if pos == |s.limits| {
      PublishByTick(s, dialled);
    } else {
      VisitByTicks(s, dialled, pos);
      UninterruptedFrom(s, dialled, pos + 1);
      Chained(AtClient(s, dialled, pos), VisitTicks(s, dialled, pos), AtClient(s, dialled, pos + 1),
              RoundTicks(s, dialled, pos + 1), RoundEnd(s, dialled));
    }
  }

  /** Left alone, the reconnect loop does what the atomic connection round says. */
  lemma UninterruptedRound(s: State, dialled: set<nat>)
    requires WellFormed(s)
    ensures Moves(World(s, Idle), [Tick(false)] + if |s.limits| == |s.connected| then [] else RoundTicks(s, dialled, 0))
            == World(ConnectAll(s, dialled), Idle)
  {
    var ticks := [Tick(false)] + if |s.limits| == |s.connected| then [] else RoundTicks(s, dialled, 0);
    var next := Step(World(s, Idle), ticks[0]);
    if |s.limits| == |s.connected| {
      assert Moves(World(s, Idle), ticks) == Moves(next, []);
    } else {
      assert ticks[1..] == RoundTicks(s, dialled, 0);
      UninterruptedFrom(s, dialled, 0);
    }
  }

  /** The steps that make up one call on its own. */
  ghost function EventMoves(s: State, e: Event): seq<Move>
    requires WellFormed(s)
  {
    match e
    case SelectAt(now) => [Selecting(now)]
    case DisconnectOf(i) => [Dropping(i)]
    case Reconnect(dialled) =>
      [Tick(false)] + if |s.limits| == |s.connected| then [] else RoundTicks(s, dialled, 0)
  }

  ghost function RunMoves(s: State, events: seq<Event>): seq<Move>
    requires WellFormed(s)
    decreases |events|
  {
    if events == [] then [] else EventMoves(s, events[0]) + RunMoves(Apply(s, events[0]), events[1..])
  }

  lemma EventIsMoves(s: State, e: Event)
    requires WellFormed(s)
    ensures Moves(World(s, Idle), EventMoves(s, e)) == World(Apply(s, e), Idle)
  {
    var ms := EventMoves(s, e);
    match e
    case SelectAt(now) =>
      assert Moves(World(s, Idle), ms) == Moves(Step(World(s, Idle), ms[0]), []);
    case DisconnectOf(i) =>
      assert Moves(World(s, Idle), ms) == Moves(Step(World(s, Idle), ms[0]), []);
    case Reconnect(dialled) =>
      UninterruptedRound(s, dialled);
  }

  /** Every run of whole calls is one of the interleavings. */
  lemma {:induction false} RunIsInterleaving(s: State, events: seq<Event>)
    requires WellFormed(s)
    ensures Moves(World(s, Idle), RunMoves(s, events)) == World(Run(s, events), Idle)
    decreases |events|
  {
    if events != [] {
      var next := Apply(s, events[0]);
      EventIsMoves(s, events[0]);
      RunIsInterleaving(next, events[1..]);
      MovesAppend(World(s, Idle), EventMoves(s, events[0]), RunMoves(next, events[1..]));
    }
  }
}
