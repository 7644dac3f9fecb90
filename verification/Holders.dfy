/** The tracker against the peers' own bitfields, over runs of the engine. */
module Holders {
  import opened Bytes
  import opened Peers
  import opened Engine
  import T = Tracker

  // Bitfields come from connected peers, or with a connection, and cover all chunks.
  predicate FullBitfield(s: State, e: Event) {
    match e
    case BitfieldMsg(from, bits) => from in s.peers && 8 * |bits| >= |s.avail|
    case HaveMsg(from, _, _) => from in s.peers
    case Connect(_, bits) => bits.Some? ==> 8 * |bits.value| >= |s.avail|
    case _ => true
  }

  predicate FullBitfields(s: State, events: seq<Event>)
    decreases |events|
  {
    events == [] || (FullBitfield(s, events[0]) && FullBitfields(Next(s, events[0]), events[1..]))
  }

  // Exactly the connected peers whose bitfield has the bit are listed.
  ghost predicate Exact(s: State) {
    && (forall i: nat, id | i < |s.avail| :: id in s.avail[i] <==> id in s.peers && HasChunk(s.peers[id], i))
    && (forall id | id in s.peers && s.peers[id].bits.Some? :: 8 * |s.peers[id].bits.value| >= |s.avail|)
  }

  // Only the in-flight maps, speeds and request lists of the peers changed.
  ghost predicate SameBits(s: State, t: State) {
    && t.avail == s.avail && t.peers.Keys == s.peers.Keys
    && forall id | id in s.peers :: t.peers[id].bits == s.peers[id].bits
  }

  lemma SameBitsExact(s: State, t: State)
    requires Exact(s) && SameBits(s, t)
    ensures Exact(t)
  {
    forall i: nat, id | i < |t.avail|
      ensures id in t.avail[i] <==> id in t.peers && HasChunk(t.peers[id], i)
    {
      assert id in s.peers ==> HasChunk(t.peers[id], i) == HasChunk(s.peers[id], i);
    }
  }

  // A peer's full bitfield is entered in the table and in the tracker.
  lemma UpdateExact(s: State, t: State, from: PeerId, bits: seq<byte>)
    requires Exact(s) && 8 * |bits| >= |s.avail|
    requires t.avail == T.Updated(s.avail, from, bits) && from in t.peers && t.peers[from].bits == Some(bits)
    requires forall id | id != from :: id in t.peers <==> id in s.peers
    requires forall id | id != from && id in t.peers :: t.peers[id].bits == s.peers[id].bits
    ensures Exact(t)
  {
    forall i: nat, id | i < |t.avail|
      ensures id in t.avail[i] <==> id in t.peers && HasChunk(t.peers[id], i)
    {
      assert i / 8 < |bits|;
      if id != from && id in s.peers {
        assert HasChunk(t.peers[id], i) == HasChunk(s.peers[id], i);
      }
    }
  }

  lemma ConnectExact(s: State, id: PeerId, held: Option<seq<byte>>)
    requires Exact(s) && id !in s.peers && (held.Some? ==> 8 * |held.value| >= |s.avail|)
    ensures Exact(ConnectOf(s, id, held))
  {
    if held.Some? {
      UpdateExact(s, ConnectOf(s, id, held), id, held.value);
    }
  }

  lemma HaveExact(s: State, from: PeerId, index: nat)
    requires Exact(s) && from in s.peers
    ensures Exact(HaveOf(s, from, index, None))
  {
    var t := HaveOf(s, from, index, None);
    if s.peers[from].bits.None? {
      SameBitsExact(s, t);
    } else {
      UpdateExact(s, t, from, WithHave(s.peers[from], index).bits.value);
    }
  }

  lemma DisconnectExact(s: State, id: PeerId)
    requires Exact(s)
    ensures Exact(DisconnectOf(s, id))
  {}

  lemma StepKeepsExact(s: State, e: Event)
    requires Exact(s) && Enabled(s, e) && FullBitfield(s, e)
    ensures Exact(Next(s, e))
  {
    var t := Next(s, e);
    match e {
      case Tick(_, _) => SameBitsExact(s, t);
      case Piece(_, _, _, _, _) => SameBitsExact(s, t);
      case BitfieldMsg(from, bits) => UpdateExact(s, t, from, bits);
      case HaveMsg(from, index, _) => HaveExact(s, from, index);
      case Connect(id, held) => ConnectExact(s, id, held);
      case Disconnect(id) => DisconnectExact(s, id);
      case Demand(_) =>
      case SetCursor(_) =>
    }
  }

  lemma {:induction false} RunKeepsExact(s: State, events: seq<Event>)
    requires Exact(s) && Legal(s, events) && FullBitfields(s, events)
    ensures Exact(Run(s, events))
    decreases |events|
  {
    if events != [] {
      StepKeepsExact(s, events[0]);
      RunKeepsExact(Next(s, events[0]), events[1..]);
    }
  }

  lemma ExactMeans(s: State, i: nat)
    requires Exact(s) && i < |s.avail|
    ensures s.avail[i] == set id | id in s.peers && HasChunk(s.peers[id], i)
  {}

  lemma InitiallyExact(s: State)
    requires Initial(s)
    ensures Exact(s)
  {}

  // With full-length bitfields from connected peers, the tracker's set for a chunk is exactly
  // the set of connected peers that have it, so rarity is their number.
  lemma RarityIsExact(s0: State, events: seq<Event>, i: nat)
    requires Initial(s0) && Legal(s0, events) && FullBitfields(s0, events)
    requires i < |Run(s0, events).avail|
    ensures var s := Run(s0, events);
            s.avail[i] == set id | id in s.peers && HasChunk(s.peers[id], i)
  {
    InitiallyExact(s0);
    RunKeepsExact(s0, events);
    ExactMeans(Run(s0, events), i);
  }
}
