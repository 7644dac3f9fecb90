/** Which peers have which chunk (internal/peer/tracker.go). */
module Tracker {
  import opened Bytes
  import opened Bitfield
  import opened Sets

  // avail[i]: the peers listed for chunk i.
  type Avail = seq<set<PeerId>>

  function Updated(avail: Avail, p: PeerId, bf: seq<byte>): (r: Avail)
    ensures |r| == |avail|
  {
    seq(|avail|, i requires 0 <= i < |avail| =>
      if i / 8 >= |bf| then avail[i] else if HasBit(bf, i) then avail[i] + {p} else avail[i] - {p})
  }

  function Removed(avail: Avail, p: PeerId): (r: Avail)
    ensures |r| == |avail|
  {
    seq(|avail|, i requires 0 <= i < |avail| => avail[i] - {p})
  }

  class Tracker {
    const availability: array<set<PeerId>>

    constructor (chunkCount: nat)
      ensures fresh(availability) && availability[..] == seq(chunkCount, _ => {})
    {
      availability := new set<PeerId>[chunkCount](_ => {});
      new;
      assert availability[..] == seq(chunkCount, _ => {});
    }

    // The loop stops at the end of a short bitfield.
    method UpdateFromBitfield(p: PeerId, bf: seq<byte>)
      modifies availability
      ensures availability[..] == Updated(old(availability[..]), p, bf)
    {
      ghost var was := availability[..];
      var i := 0;
      while i < availability.Length && i / 8 < |bf|
        invariant 0 <= i <= availability.Length
        invariant forall k :: 0 <= k < i ==> k / 8 < |bf| && availability[k] == Updated(was, p, bf)[k]
        invariant forall k :: i <= k < availability.Length ==> availability[k] == was[k]
      {
        if HasBit(bf, i) {
          availability[i] := availability[i] + {p};
        } else {
          availability[i] := availability[i] - {p};
        }
        i := i + 1;
      }
      assert forall k :: i <= k < |was| ==> k / 8 >= |bf|;
      assert availability[..] == Updated(was, p, bf);
    }

    method RemovePeer(p: PeerId)
      modifies availability
      ensures availability[..] == Removed(old(availability[..]), p)
    {
      ghost var was := availability[..];
      for i := 0 to availability.Length
        invariant forall k :: 0 <= k < i ==> availability[k] == was[k] - {p}
        invariant forall k :: i <= k < availability.Length ==> availability[k] == was[k]
      {
        availability[i] := availability[i] - {p};
      }
      assert availability[..] == Removed(was, p);
    }

    method Rarity(index: int) returns (n: nat)
      ensures n == if 0 <= index < availability.Length then |availability[index]| else 0
    {
      if index < 0 || index >= availability.Length {
        return 0;
      }
      n := |availability[index]|;
    }

    // The listed peers, each once, in no particular order.
    method PeerIDsWithChunk(index: int) returns (ids: seq<PeerId>)
      ensures if 0 <= index < availability.Length then Lists(ids, availability[index]) else ids == []
    {
      ids := [];
      if index < 0 || index >= availability.Length {
        return;
      }
      var rest := availability[index];
      while rest != {}
        invariant rest <= availability[index]
        invariant Lists(ids, availability[index] - rest)
        decreases |rest|
      {
        var id :| id in rest;
        ids := ids + [id];
        rest := rest - {id};
      }
      assert availability[index] - rest == availability[index];
    }
  }

  // ---------------------------------------------------------------- event history

  datatype Event = Update(p: PeerId, bf: seq<byte>) | Remove(p: PeerId)

  function Replay(n: nat, events: seq<Event>): (avail: Avail)
    ensures |avail| == n
  {
    if events == [] then seq(n, _ => {})
    else
      var before := Replay(n, events[..|events| - 1]);
      match events[|events| - 1]
      case Update(p, bf) => Updated(before, p, bf)
      case Remove(p) => Removed(before, p)
  }

  // The event decides whether p is listed for chunk i.
  predicate Decides(e: Event, p: PeerId, i: nat) {
    e.p == p && (e.Update? ==> i / 8 < |e.bf|)
  }

  // Event k is an update with bit i set, and no later event decides.
  predicate YesAt(events: seq<Event>, p: PeerId, i: nat, k: nat) {
    k < |events| && Decides(events[k], p, i) && events[k].Update? && HasBit(events[k].bf, i)
    && forall j :: k < j < |events| ==> !Decides(events[j], p, i)
  }

  // The latest deciding event is an update with bit i set.
  ghost predicate LastSaysYes(events: seq<Event>, p: PeerId, i: nat) {
    exists k: nat :: YesAt(events, p, i, k)
  }

  lemma LastSaysYesStep(events: seq<Event>, last: Event, p: PeerId, i: nat)
    ensures LastSaysYes(events + [last], p, i) <==>
      if Decides(last, p, i) then last.Update? && HasBit(last.bf, i) else LastSaysYes(events, p, i)
  {
    var all := events + [last];
    forall k: nat | YesAt(all, p, i, k)
      ensures if Decides(last, p, i) then last.Update? && HasBit(last.bf, i) else YesAt(events, p, i, k)
    {
      if k < |events| {
        assert !Decides(all[|events|], p, i);
        assert forall j :: k < j < |events| ==> events[j] == all[j];
      }
    }
    if Decides(last, p, i) {
      if last.Update? && HasBit(last.bf, i) {
        assert YesAt(all, p, i, |events|);
      }
    } else if LastSaysYes(events, p, i) {
      var k: nat :| YesAt(events, p, i, k);
      assert YesAt(all, p, i, k);
    }
  }

  // After any sequence of updates and removals, p is listed for chunk i exactly when the latest
  // update from p since its last removal whose bitfield reaches byte i/8 has bit i set.
  lemma {:induction false} RefinesHistory(n: nat, events: seq<Event>, p: PeerId, i: nat)
    requires i < n
    ensures p in Replay(n, events)[i] <==> LastSaysYes(events, p, i)
  {
    if events != [] {
      var init, last := events[..|events| - 1], events[|events| - 1];
      assert events == init + [last];
      RefinesHistory(n, init, p, i);
      LastSaysYesStep(init, last, p, i);
    }
  }
}
