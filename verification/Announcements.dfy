/** Who is listed for what, read off the events alone: the tracker and the peers' bitfields against
    the connections, disconnects, BITFIELDs and HAVEs of a run. */
module Announcements {
  import opened Bytes
  import opened Bitfield
  import opened Peers
  import opened Engine
  import opened Runs
  import T = Tracker

  // ---------------------------------------------------------------- connections and bitfields

  // Whether the peer is connected after the events.
  function Connected(events: seq<Event>, p: PeerId): bool {
    if events == [] then false
    else
      var before := Connected(events[..|events| - 1], p);
      match events[|events| - 1]
      case Connect(id, _) => id == p || before
      case Disconnect(id) => id != p && before
      case _ => before
  }

  // The bitfield a connected peer has announced: its last BITFIELD, or the one it connected with,
  // and the HAVEs since that it covers.
  function Announced(events: seq<Event>, p: PeerId): Option<seq<byte>> {
    if events == [] then None
    else
      var init, before := events[..|events| - 1], Announced(events[..|events| - 1], p);
      match events[|events| - 1]
      case Connect(id, held) => if id == p then held else before
      case BitfieldMsg(from, bits) => if from == p && Connected(init, p) then Some(bits) else before
      case HaveMsg(from, index, _) => if from == p then PlusHave(before, index) else before
      case _ => before
  }

  function PlusHave(bits: Option<seq<byte>>, index: nat): Option<seq<byte>> {
    if bits.Some? && index / 8 < |bits.value| then Some(WithBit(bits.value, index)) else bits
  }

  // The peer table and the bitfields in it are what the events say.
  lemma {:induction false} PeersAreAnnounced(s0: State, events: seq<Event>, p: PeerId)
    requires Initial(s0) && Legal(s0, events)
    ensures var s := Run(s0, events);
            && (p in s.peers <==> Connected(events, p))
            && (p in s.peers ==> s.peers[p].bits == Announced(events, p))
    decreases |events|
  {
    if events != [] {
      var init, e := events[..|events| - 1], events[|events| - 1];
      RunInit(s0, events);
      PeersAreAnnounced(s0, init, p);
      PeerStep(Run(s0, init), e, p);
    }
  }

  // What one event does to a peer's place in the table and its bitfield.
  lemma PeerStep(s: State, e: Event, p: PeerId)
    requires Enabled(s, e)
    ensures var t := Next(s, e);
            && (p in t.peers <==> (e.Connect? && e.id == p) || (p in s.peers && !(e.Disconnect? && e.id == p)))
            && (p in t.peers && !(e.Connect? && e.id == p) ==>
                  t.peers[p].bits ==
                  if e.BitfieldMsg? && e.from == p then Some(e.bits)
                  else if e.HaveMsg? && e.from == p then PlusHave(s.peers[p].bits, e.index)
                  else s.peers[p].bits)
            && (e.Connect? && e.id == p ==> t.peers[p].bits == e.held)
  {}

  // ---------------------------------------------------------------- the announced bits

  // Event k sets p's bitfield as a whole: p's connection, or a BITFIELD while connected.
  predicate SetsWhole(events: seq<Event>, p: PeerId, k: nat) {
    k < |events| &&
    match events[k]
    case Connect(id, _) => id == p
    case BitfieldMsg(from, _) => from == p && Connected(events[..k], p)
    case _ => false
  }

  function Whole(e: Event): Option<seq<byte>>
    requires e.Connect? || e.BitfieldMsg?
  {
    if e.Connect? then e.held else Some(e.bits)
  }

  // Event k is the last to do so.
  predicate LastSets(events: seq<Event>, p: PeerId, k: nat) {
    SetsWhole(events, p, k) && forall j :: k < j < |events| ==> !SetsWhole(events, p, j)
  }

  predicate HaveAfter(events: seq<Event>, p: PeerId, i: nat, k: nat, m: nat) {
    k < m < |events| && events[m].HaveMsg? && events[m].from == p && events[m].index == i
  }

  ghost predicate SomeHaveAfter(events: seq<Event>, p: PeerId, i: nat, k: nat) {
    exists m :: HaveAfter(events, p, i, k, m)
  }

  lemma SetsInit(events: seq<Event>, p: PeerId, k: nat)
    requires events != [] && k < |events| - 1
    ensures SetsWhole(events, p, k) <==> SetsWhole(events[..|events| - 1], p, k)
  {
    assert events[..|events| - 1][..k] == events[..k];
  }

  lemma HaveInit(events: seq<Event>, p: PeerId, i: nat, k: nat)
    requires events != []
    ensures var init, m := events[..|events| - 1], |events| - 1;
            SomeHaveAfter(events, p, i, k) <==> SomeHaveAfter(init, p, i, k) || HaveAfter(events, p, i, k, m)
  {
    var init := events[..|events| - 1];
    if SomeHaveAfter(init, p, i, k) {
      var m: nat :| HaveAfter(init, p, i, k, m);
      assert HaveAfter(events, p, i, k, m);
    }
    if SomeHaveAfter(events, p, i, k) {
      var m: nat :| HaveAfter(events, p, i, k, m);
      assert m < |init| ==> HaveAfter(init, p, i, k, m);
    }
  }

  // The announced bitfield is the last whole one with the bits of the later HAVEs added.
  lemma {:induction false} AnnouncedBits(events: seq<Event>, p: PeerId, k: nat)
    requires LastSets(events, p, k)
    ensures var base, bits := Whole(events[k]), Announced(events, p);
            && (bits.Some? <==> base.Some?)
            && (base.Some? ==>
                  && |bits.value| == |base.value|
                  && forall i: nat | i / 8 < |base.value| ::
                       HasBit(bits.value, i) <==> HasBit(base.value, i) || SomeHaveAfter(events, p, i, k))
    decreases |events|
  {
    var init, e := events[..|events| - 1], events[|events| - 1];
    if k == |events| - 1 {
      assert events[..k] == init;
      forall i: nat
        ensures !SomeHaveAfter(events, p, i, k)
      {}
    } else {
      forall j | k <= j < |init|
        ensures SetsWhole(init, p, j) <==> SetsWhole(events, p, j)
      {
        SetsInit(events, p, j);
      }
      AnnouncedBits(init, p, k);
      assert events[..|init|] == init && !SetsWhole(events, p, |init|) && events[k] == init[k];
      forall i: nat
        ensures SomeHaveAfter(events, p, i, k) <==>
                SomeHaveAfter(init, p, i, k) || (e.HaveMsg? && e.from == p && e.index == i)
      {
        HaveInit(events, p, i, k);
      }
      AnnouncedStep(init, e, p);
      assert init + [e] == events;
      PlusHaveIs(Announced(init, p), if e.HaveMsg? then e.index else 0);
    }
  }

  // An event that does not set the bitfield as a whole adds at most a bit.
  lemma AnnouncedStep(init: seq<Event>, e: Event, p: PeerId)
    requires !SetsWhole(init + [e], p, |init|)
    ensures Announced(init + [e], p) ==
      if e.HaveMsg? && e.from == p then PlusHave(Announced(init, p), e.index) else Announced(init, p)
  {
    assert (init + [e])[..|init|] == init;
  }

  lemma PlusHaveIs(bits: Option<seq<byte>>, index: nat)
    ensures PlusHave(bits, index).Some? <==> bits.Some?
    ensures bits.Some? ==>
      var b, c := bits.value, PlusHave(bits, index).value;
      |c| == |b| && forall i: nat | i / 8 < |b| :: HasBit(c, i) <==> i == index || HasBit(b, i)
  {
    if bits.Some? && index / 8 < |bits.value| {
      WithBitIs(bits.value, index);
    }
  }

  lemma WithBitIs(bits: seq<byte>, index: nat)
    requires index / 8 < |bits|
    ensures forall i: nat | i / 8 < |bits| :: HasBit(WithBit(bits, index), i) <==> i == index || HasBit(bits, i)
  {
    WithBitAddsExactly(bits, index);
    forall i: nat | i / 8 < |bits|
      ensures HasBit(WithBit(bits, index), i) <==> i == index || HasBit(bits, i)
    {
      assert i in Bits(WithBit(bits, index)) <==> i in Bits(bits) || i == index;
    }
  }

  // ---------------------------------------------------------------- the tracker

  // What the tracker is told by an event, after the events before it.
  function Told(before: seq<Event>, e: Event): seq<T.Event> {
    match e
    case BitfieldMsg(from, bits) => [T.Update(from, bits)]
    case HaveMsg(from, index, held) =>
      Update(from, PlusHave(if Connected(before, from) then Announced(before, from) else held, index))
    case Connect(id, held) => Update(id, held)
    case Disconnect(id) => if Connected(before, id) then [T.Remove(id)] else []
    case _ => []
  }

  function Update(p: PeerId, bits: Option<seq<byte>>): seq<T.Event> {
    if bits.None? then [] else [T.Update(p, bits.value)]
  }

  function History(events: seq<Event>): seq<T.Event> {
    if events == [] then []
    else History(events[..|events| - 1]) + Told(events[..|events| - 1], events[|events| - 1])
  }

  lemma ReplayOne(n: nat, h: seq<T.Event>, e: T.Event)
    ensures T.Replay(n, h + [e]) ==
      if e.Update? then T.Updated(T.Replay(n, h), e.p, e.bf) else T.Removed(T.Replay(n, h), e.p)
  {
    assert (h + [e])[..|h|] == h;
  }

  lemma TrackerStep(s: State, before: seq<Event>, e: Event, n: nat, h: seq<T.Event>)
    requires Enabled(s, e) && s.avail == T.Replay(n, h)
    requires forall p :: p in s.peers <==> Connected(before, p)
    requires forall p | p in s.peers :: s.peers[p].bits == Announced(before, p)
    ensures Next(s, e).avail == T.Replay(n, h + Told(before, e))
  {
    var told := Told(before, e);
    if told == [] {
      assert h + told == h;
    } else {
      ReplayOne(n, h, told[0]);
    }
  }

  lemma {:induction false} AvailIsReplay(s0: State, events: seq<Event>)
    requires Initial(s0) && Legal(s0, events)
    ensures Run(s0, events).avail == T.Replay(|s0.avail|, History(events))
    decreases |events|
  {
    var n := |s0.avail|;
    if events == [] {
      assert s0.avail == T.Replay(n, []);
    } else {
      var init, e := events[..|events| - 1], events[|events| - 1];
      RunInit(s0, events);
      AvailIsReplay(s0, init);
      forall p
        ensures p in Run(s0, init).peers <==> Connected(init, p)
        ensures p in Run(s0, init).peers ==> Run(s0, init).peers[p].bits == Announced(init, p)
      {
        PeersAreAnnounced(s0, init, p);
      }
      TrackerStep(Run(s0, init), init, e, n, History(init));
    }
  }

  // Over every run, a peer is listed for a chunk exactly when, of the bitfields that its BITFIELDs,
  // HAVEs and connections announced since its last disconnect, the latest that reaches the chunk's
  // byte has the bit set.
  lemma ListedExactly(s0: State, events: seq<Event>, p: PeerId, i: nat)
    requires Initial(s0) && Legal(s0, events) && i < |s0.avail|
    ensures |Run(s0, events).avail| == |s0.avail|
    ensures p in Run(s0, events).avail[i] <==> T.LastSaysYes(History(events), p, i)
  {
    AvailIsReplay(s0, events);
    T.RefinesHistory(|s0.avail|, History(events), p, i);
  }
}
