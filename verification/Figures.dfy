/** Selections and disconnects in figures: where a selection looks first, when and with what it refills, what stays. */
module Figures {
  import opened Outcomes
  import opened BalancerSpec

  /** An index past the end of the list starts over; within the list the client there goes first while it has tokens. */
  lemma IndexInFigures(s: State, now: int)
    requires WellFormed(s)
    ensures s.index >= |s.connected| ==> Select(s, now) == Select(s.(index := 0), now)
    ensures s.index < |s.connected| && Tokens(s, now, s.connected[s.index]) > 0 ==>
      && Select(s, now).1 == Some(s.connected[s.index])
      && Select(s, now).0.index == if s.index + 1 == |s.connected| then 0 else s.index + 1
    ensures s.index < |s.connected| && Tokens(s, now, s.connected[s.index]) == 0 ==> Select(s, now).0.index == s.index
  {
    SelectionRule(s, now);
    SelectionEffect(s, now);
    if s.index < |s.connected| {
      NextInFigures(s.index, |s.connected|);
    } else {
      assert Ready(s, now) == Ready(s.(index := 0), now);
    }
  }

  lemma NextInFigures(index: nat, n: nat)
    requires index < n
    ensures (index + 1) % n == if index + 1 == n then 0 else index + 1
  {
  }

  lemma TruncateInFigures(t: int)
    ensures Truncate(t) <= t < Truncate(t) + 1_000_000_000 && Truncate(t) % 1_000_000_000 == 0
  {
  }

  /** A refill is due a second after the last update: it gives the limit, or the largest 64-bit number for none. */
  lemma TokensInFigures(s: State, now: int, i: nat)
    requires WellFormed(s) && i < |s.limits|
    ensures Tokens(s, now, i) ==
            if now - s.lastUpdated < 1_000_000_000 then s.buckets[i]
            else if s.limits[i] == 0 then 0x7FFF_FFFF_FFFF_FFFF
            else s.limits[i]
  {
  }

  /** The buckets and the time of the last update after a selection, in figures. */
  lemma RefillInFigures(s: State, now: int)
    requires WellFormed(s)
    ensures var (t, r) := Select(s, now);
      && (forall i: nat :: i < |s.limits| ==>
        t.buckets[i] == (if i !in s.connected || now - s.lastUpdated < 1_000_000_000 then s.buckets[i]
                         else if s.limits[i] == 0 then 0x7FFF_FFFF_FFFF_FFFF
                         else s.limits[i])
                        - if r == Some(i) then 1 else 0)
      && (now - s.lastUpdated < 1_000_000_000 ==> t.lastUpdated == s.lastUpdated)
      && (now - s.lastUpdated >= 1_000_000_000 ==>
        t.lastUpdated <= now < t.lastUpdated + 1_000_000_000 && t.lastUpdated % 1_000_000_000 == 0)
  {
    var (t, r) := Select(s, now);
    SelectionEffect(s, now);
    TruncateInFigures(now);
    forall i: nat | i < |s.limits|
      ensures t.buckets[i] == (if i !in s.connected || now - s.lastUpdated < 1_000_000_000 then s.buckets[i]
                               else if s.limits[i] == 0 then 0x7FFF_FFFF_FFFF_FFFF
                               else s.limits[i])
                              - if r == Some(i) then 1 else 0
    {
      TokensInFigures(s, now, i);
    }
  }

  /** A disconnect touches the list, the one flag and the log, and nothing when the client is not listed. */
  lemma DisconnectEffect(s: State, i: nat)
    requires WellFormed(s)
    ensures var t := Disconnect(s, i);
      && (forall j :: j in t.connected <==> j in s.connected && j != i)
      && (forall j :: 0 <= j < |s.flags| ==> t.flags[j] == (s.flags[j] && !(j == i && i in s.connected)))
      && t.buckets == s.buckets && t.index == s.index && t.lastUpdated == s.lastUpdated && t.limits == s.limits
      && t.log == s.log + if i in s.connected then [Notified(i, false)] else []
  {
    WithoutKeepsOrder(s.connected, i, |s.limits|);
  }
}
