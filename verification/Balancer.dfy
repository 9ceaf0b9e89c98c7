/**
The balancer itself: client records in the heap, updated in place
(commons/balancer/balancer.go). `view` is the abstract state of `BalancerSpec`;
`Valid` ties it to the records, and every method says how it changes.
*/
module Balancer {
  import opened Outcomes
  import opened BalancerSpec
  import Arithmetic
  import CallWait

  class ClientRecord {
    const idx: nat
    const limitRps: uint32
    var connected: bool
    var bucket: int

    constructor (idx: nat, limitRps: uint32)
      ensures this.idx == idx && this.limitRps == limitRps
      ensures !connected && bucket == limitRps
    {
      this.idx, this.limitRps := idx, limitRps;
      connected, bucket := false, limitRps;
    }
  }

  class ClientBalancer {
    const clients: seq<ClientRecord>
    var connected: seq<ClientRecord>
    var lastUpdated: int
    var index: nat
    /** What callers and the status callback have observed, appended where the code does it. */
    ghost var log: seq<Observation>
    ghost var view: State

    ghost predicate RecordsShow(limits: seq<uint32>, flags: seq<bool>, buckets: seq<int>)
      reads clients
    {
      && |clients| == |limits| == |flags| == |buckets|
      && (forall i :: 0 <= i < |clients| ==>
        clients[i].idx == i && clients[i].limitRps == limits[i] &&
        clients[i].connected == flags[i] && clients[i].bucket == buckets[i])
    }

    ghost predicate ListShows(list: seq<ClientRecord>, members: seq<nat>) {
      && |list| == |members|
      && (forall k :: 0 <= k < |members| ==> members[k] < |clients| && list[k] == clients[members[k]])
    }

    ghost predicate Valid()
      reads this, clients
    {
      && WellFormed(view)
      && RecordsShow(view.limits, view.flags, view.buckets)
      && ListShows(connected, view.connected)
      && index == view.index && lastUpdated == view.lastUpdated && log == view.log
    }

    constructor (limits: seq<uint32>)
      ensures Valid() && fresh(this) && fresh(clients)
      ensures view == Fresh(limits)
    {
      var records: seq<ClientRecord> := [];
      for i := 0 to |limits|
        invariant |records| == i
        invariant forall k :: 0 <= k < i ==>
          fresh(records[k]) && records[k].idx == k && records[k].limitRps == limits[k] &&
          !records[k].connected && records[k].bucket == limits[k]
      {
        var record := new ClientRecord(i, limits[i]);
        records := records + [record];
      }
      clients := records;
      connected, lastUpdated, index, log := [], 0, 0, [];
      view := Fresh(limits);
    }

    method Start(now: int, dialled: set<nat>)
      requires Valid()
      modifies this, clients
      ensures Valid()
      ensures view == BalancerSpec.Start(old(view), now, dialled)
    {
      lastUpdated := Truncate(now);
      view := view.(lastUpdated := Truncate(now));
      ConnectClients(dialled);
    }

    /** One reconnect round, `dialled` being the clients whose dial succeeds. */
    method ConnectClients(dialled: set<nat>)
      requires Valid()
      modifies this, clients
      ensures Valid()
      ensures view == ConnectAll(old(view), dialled)
    {
      if |clients| == |connected| {
        return;
      }
      var newConnected := VisitClients(dialled);
      Publish(newConnected);
    }

    lemma ListGrows(list: seq<ClientRecord>, members: seq<nat>, i: nat)
      requires ListShows(list, members) && i < |clients|
      ensures ListShows(list + [clients[i]], members + [i])
    {
    }

    /** The unlocked part of a round: builds the new list without touching the old one. */
    method VisitClients(dialled: set<nat>) returns (newConnected: seq<ClientRecord>)
      requires Valid()
      modifies clients, `log, `view
      ensures Valid()
      ensures view == Visited(old(view), dialled, |clients|)
      ensures ListShows(newConnected, Members(view.flags, |clients|))
    {
      newConnected := [];
      for i := 0 to |clients|
        invariant Valid() && view == Visited(old(view), dialled, i)
        invariant ListShows(newConnected, Members(view.flags, i))
      {
        MembersAfterVisit(old(view), dialled, i);
        var up := VisitClient(i, dialled);
        if up {
          ListGrows(newConnected, Members(Visited(old(view), dialled, i).flags, i), i);
          newConnected := newConnected + [clients[i]];
        }
      }
    }

    /** The locked end of a round. */
    method Publish(newConnected: seq<ClientRecord>)
      requires Valid() && ListShows(newConnected, Members(view.flags, |clients|))
      modifies `connected, `view
      ensures Valid()
      ensures view == old(view).(connected := Members(old(view).flags, |clients|))
    {
      MembersInOrder(view.flags, |clients|);
      connected := newConnected;
      view := view.(connected := Members(view.flags, |clients|));
    }

    /** Dials client i if it is down. */
    method VisitClient(i: nat, dialled: set<nat>) returns (up: bool)
      requires Valid() && i < |clients|
      modifies clients, `log, `view
      ensures Valid()
      ensures view == Visit(old(view), i, dialled) && up == view.flags[i]
    {
      var client := clients[i];
      if !client.connected {
        if i !in dialled {
          return false;
        }
        client.connected := true;
        log := log + [Notified(i, true)];
        view := Visit(view, i, dialled);
      }
      return true;
    }

    method MarkDisconnected(client: ClientRecord)
      requires Valid()
      modifies this, clients
      ensures Valid()
      ensures view == Disconnect(old(view), client.idx)
    {
      for i := 0 to |connected|
        invariant Valid() && view == old(view) && connected == old(connected)
        invariant forall a :: 0 <= a < i ==> view.connected[a] != client.idx
      {
        var v := connected[i];
        if v.idx == client.idx {
          DropAt(i);
          return;
        }
      }
    }

    lemma ListShrinks(list: seq<ClientRecord>, members: seq<nat>, i: nat)
      requires ListShows(list, members) && i < |list|
      ensures ListShows(list[..i] + list[i + 1..], members[..i] + members[i + 1..])
    {
      var rest := members[..i] + members[i + 1..];
      assert forall k :: 0 <= k < |rest| ==> rest[k] == members[if k < i then k else k + 1];
    }

    /** Takes the client at position i out of the list and flags it down. */
    method DropAt(i: nat)
      requires Valid() && i < |connected|
      modifies clients, `connected, `log, `view
      ensures Valid()
      ensures view == Disconnect(old(view), old(connected[i]).idx)
    {
      var v := connected[i];
      DisconnectAt(view, i);
      ListShrinks(connected, view.connected, i);
      connected := connected[..i] + connected[i + 1..];
      v.connected := false;
      log := log + [Notified(v.idx, false)];
      view := Disconnect(view, v.idx);
    }

    /** The refill part of a selection. */
    method RefillBuckets(now: int)
      requires Valid()
      modifies this, clients
      ensures Valid()
      ensures view == Refill(old(view), now)
    {
      ghost var before := view;
      for k := 0 to |connected|
        invariant Valid() && connected == old(connected)
        invariant view == RefillFirst(before, now, k)
      {
        RefillStep(before, now, k);
        RefillClient(connected[k], now);
      }
      lastUpdated := Truncate(now);
      view := Refill(before, now);
    }

    method RefillClient(client: ClientRecord, now: int)
      requires Valid() && client in clients
      modifies clients, `log, `view
      ensures Valid()
      ensures view == RefillOne(old(view), client.idx, now)
    {
      var effLimit := client.limitRps as int;
      if effLimit <= 0 {
        effLimit := MAX_INT64;
      }
      client.bucket := effLimit;
      log := log + [Refilled(client.idx, now)];
      view := RefillOne(view, client.idx, now);
    }

    /** The scan for the client with the fullest bucket, -1 when all are empty. */
    method FullestPosition() returns (maxIdx: int)
      requires Valid()
      ensures -1 <= maxIdx < |connected|
      ensures Fullest(Levels(view)) == if maxIdx < 0 then None else Some(maxIdx)
    {
      var maxVal := 0;
      maxIdx := -1;
      ghost var levels := Levels(view);
      for j := 0 to |connected|
        invariant -1 <= maxIdx < j
        invariant maxVal == if maxIdx < 0 then 0 else levels[maxIdx]
        invariant Fullest(levels[..j]) == if maxIdx < 0 then None else Some(maxIdx)
      {
        assert levels[..j + 1][..j] == levels[..j];
        if connected[j].bucket > maxVal {
          maxVal := connected[j].bucket;
          maxIdx := j;
        }
      }
      assert levels[..|connected|] == levels;
    }

    method SelectClient(now: int) returns (client: ClientRecord?)
      requires Valid()
      modifies this, clients
      ensures Valid()
      ensures view == Select(old(view), now).0
      ensures client == null <==> Select(old(view), now).1.None?
      ensures client != null ==> client == clients[Select(old(view), now).1.value]
    {
      PrepareSelection(now);
      client := ScanClients(now);
    }

    /** The first part of a selection: an index past the end starts over, and buckets are refilled when due. */
    method PrepareSelection(now: int)
      requires Valid()
      modifies this, clients
      ensures Valid()
      ensures view == Ready(old(view), now)
    {
      if index >= |connected| {
        index := 0;
        view := view.(index := 0);
      }
      if now - lastUpdated >= SECOND {
        RefillBuckets(now);
      }
    }

    /** The rotation part of a selection, with the search for the fullest bucket inside it. */
    method ScanClients(now: int) returns (client: ClientRecord?)
      requires Valid() && (connected == [] || index < |connected|)
      modifies this, clients
      ensures Valid()
      ensures match Choice(Levels(old(view)), old(index))
              case None => client == null && view == old(view)
              case Some(p) =>
                client == clients[old(view).connected[p]] && view == BalancerSpec.Take(old(view), p, now)
    {
      var l := |connected|;
      for i := 0 to l
        invariant Valid() && view == old(view) && l == |connected|
        invariant i > 0 ==> Fullest(Levels(view)).None?
      {
        var p := (index + i) % l;
        client := connected[p];
        assert Levels(view)[p] == client.bucket;
        if i == 0 {
          Arithmetic.SmallMod(index, l);
        }
        if client.bucket > 0 {
          assert i == 0 && p == index;
          TakeToken(p, (index + i + 1) % l, now);
          return;
        } else {
          var maxIdx := FullestPosition();
          if maxIdx >= 0 {
            assert i == 0 && Levels(view)[index] <= 0;
            client := connected[maxIdx];
            TakeToken(maxIdx, index, now);
            return;
          }
        }
      }
      client := null;
    }

    /** Takes one token from the connected client at position p and leaves the index at `next`. */
    method TakeToken(p: nat, next: nat, now: int)
      requires Valid() && index < |connected|
      requires p < |connected| && connected[p].bucket > 0
      modifies clients, `index, `log, `view
      ensures Valid()
      ensures view == BalancerSpec.Take(old(view), p, now).(index := next)
    {
      index := next;
      var client := connected[p];
      client.bucket := client.bucket - 1;
      log := log + [Selected(client.idx, now)];
      view := BalancerSpec.Take(view.(index := old(index)), p, now).(index := next);
    }

    /** What other goroutines do meanwhile. */
    method Perform(events: seq<Event>)
      requires Valid()
      modifies this, clients
      ensures Valid()
      ensures view == Run(old(view), events)
    {
      for k := 0 to |events|
        invariant Valid()
        invariant Run(view, events[k..]) == Run(old(view), events)
      {
        assert events[k..][1..] == events[k + 1..];
        match events[k]
        case SelectAt(now) =>
          var _ := SelectClient(now);
        case Reconnect(dialled) =>
          ConnectClients(dialled);
        case DisconnectOf(i) =>
          if i < |clients| {
            MarkDisconnected(clients[i]);
          }
      }
    }

    /** `breaks` are the clients on which the operation ends in a connection error. */
    method Call(now: int, during: seq<Event>, breaks: set<nat>) returns (used: Option<nat>)
      requires Valid()
      modifies this, clients
      ensures Valid()
      ensures (view, used) == CallWait.Call(old(view), now, during, breaks)
    {
      var client := SelectClient(now);
      if client == null {
        return None;
      }
      used := Some(client.idx);
      UseClient(client, during, breaks);
    }

    /** Runs the operation on the client and drops the client when the connection failed. */
    method UseClient(client: ClientRecord, during: seq<Event>, breaks: set<nat>)
      requires Valid()
      modifies this, clients
      ensures Valid()
      ensures view == CallWait.Finish(old(view), client.idx, during, breaks)
    {
      Perform(during);
      if client.idx in breaks {
        MarkDisconnected(client);
      }
    }

    /** `Call`, but sleeping a second at a time until a client is free or the context has ended. */
    method CallW(
      now: int, ctx: CallWait.Context, late: nat -> nat, others: nat -> seq<Event>, during: seq<Event>, breaks: set<nat>)
      returns (used: Option<nat>, error: Option<CallWait.ContextError>, sleeps: nat)
      requires Valid() && ctx.Ends()
      modifies this, clients
      ensures Valid()
      ensures var w := CallWait.SelectOrSleep(old(view), now, ctx.End(), late, others, 0);
        && used == w.client && sleeps == w.sleeps
        && error == (if used.Some? then None else Some(ctx.Cause()))
        && view == CallWait.CallW(old(view), now, ctx.End(), late, others, during, breaks)
    {
      sleeps := 0;
      error := None;
      var clock := now;
      while true
        invariant Valid() && error == None
        invariant CallWait.SelectOrSleep(view, clock, ctx.End(), late, others, sleeps)
               == CallWait.SelectOrSleep(old(view), now, ctx.End(), late, others, 0)
        decreases ctx.End() - clock
      {
        var client := SelectClient(clock);
        if client != null {
          used := Some(client.idx);
          UseClient(client, during, breaks);
          return;
        }
        clock := CallWait.WakeUp(clock, ctx.End(), late(sleeps));
        Perform(others(sleeps));
        sleeps := sleeps + 1;
        if clock >= ctx.End() {
          return None, Some(ctx.Cause()), sleeps;
        }
      }
    }
  }
}
