/** A joiner's handling of messages and connections: the parts of internal/peer/swarm.go:488-586
    that touch its state, with the callbacks wired at cmd/join.go:80-99. Each method is proved to
    take the engine's step. */
module Session {
  import opened Bytes
  import opened Peers
  import opened Engine
  import opened Joiner
  import opened Manifests

  // The connected peers' states after a change to one peer, connected or not.
  function Replaced(peers: map<PeerId, PeerState>, id: PeerId, p: PeerState): map<PeerId, PeerState> {
    if id in peers then peers[id := p] else peers
  }

  // The data is the chunk's and the disk takes all of it.
  predicate Good(m: Manifest, sha: Digest, index: nat, data: seq<byte>, room: nat) {
    index < |m.chunks| && sha(data) == m.chunks[index].hash && |data| <= room
  }

  class Session {
    const swarm: Swarm
    const sched: Scheduler

    ghost predicate Valid()
      reads this, sched, sched.swarm, sched.store, sched.store.bitfield, sched.store.waiters.Values
    {
      sched.swarm == swarm && sched.Valid()
    }

    // A peer object stands for its ID as long as it is connected.
    ghost predicate Knows(p: Peer)
      reads swarm
    {
      p.id in swarm.peers ==> swarm.peers[p.id] == p
    }

    constructor (sched: Scheduler)
      requires sched.Valid()
      ensures this.sched == sched && this.swarm == sched.swarm && Valid()
    {
      this.sched := sched;
      this.swarm := sched.swarm;
    }

    method ClearRequest(from: Peer, index: nat, size: nat, now: real)
      requires Valid() && Knows(from)
      modifies from
      ensures Valid()
      ensures sched.Abs() == old(sched.Abs()).(peers :=
        Replaced(old(View(swarm.peers)), from.id, Clear(old(from.Abs()), index, size, now)))
    {
      from.ClearInFlight(index, size, now);
    }

    // The callback for a piece: stored, or rejected without a word to the scheduler.
    method PieceReceived(index: nat, data: seq<byte>, room: nat)
      requires Valid()
      modifies sched, sched.store, sched.store.bitfield, sched.store.waiters.Values
      ensures Valid()
      ensures var s, good := old(sched.Abs()), Good(sched.store.manifest, sched.store.sha, index, data, room);
              sched.Abs() == if Accepted(s, index, good) then
                  s.(have := s.have + {index}, inFlight := s.inFlight - {index}, urgent := s.urgent - {index})
                else s
    {
      ghost var s, good := sched.Abs(), Good(sched.store.manifest, sched.store.sha, index, data, room);
      var ok := sched.store.WriteChunk(index, data, room);
      assert ok <==> Accepted(s, index, good);
      assert sched.Abs() == if ok then s.(have := s.have + {index}) else s;
      if ok {
        sched.OnPieceReceived(index);
      }
    }

    method HandlePiece(from: Peer, index: nat, data: seq<byte>, room: nat, now: real)
      requires Valid() && Knows(from)
      modifies from, sched, sched.store, sched.store.bitfield, sched.store.waiters.Values
      ensures Valid()
      ensures var good := Good(sched.store.manifest, sched.store.sha, index, data, room);
              sched.Abs() == PieceOf(old(sched.Abs()), from.id, index, |data|, good, now)
    {
      ClearRequest(from, index, |data|, now);
      PieceReceived(index, data, room);
    }

    method HandleBitfield(from: Peer, bits: seq<byte>)
      requires Valid() && Knows(from)
      modifies from, swarm.tracker.availability
      ensures Valid()
      ensures sched.Abs() == BitfieldOf(old(sched.Abs()), from.id, bits)
    {
      from.SetBitfield(bits);
      swarm.tracker.UpdateFromBitfield(from.id, bits);
    }

    method HandleHave(from: Peer, index: nat)
      requires Valid() && Knows(from)
      modifies from, swarm.tracker.availability
      ensures Valid()
      ensures sched.Abs() == HaveOf(old(sched.Abs()), from.id, index, old(from.bitfield))
    {
      from.Have(index);
      if from.bitfield.Some? {
        swarm.tracker.UpdateFromBitfield(from.id, from.bitfield.value);
      }
    }

    // A connection is made: the bitfield received with it has been entered in the tracker.
    method AddPeer(p: Peer)
      requires Valid()
      requires p.inFlight == map[] && p.speed == 0.0 && p.requested == []
      modifies swarm, swarm.tracker.availability
      ensures Valid() && Knows(p)
      ensures sched.Abs() == ConnectOf(old(sched.Abs()), p.id, p.bitfield)
    {
      if p.bitfield.Some? {
        swarm.tracker.UpdateFromBitfield(p.id, p.bitfield.value);
      }
      swarm.peers := swarm.peers[p.id := p];
      assert View(swarm.peers) == old(View(swarm.peers))[p.id := p.Abs()];
    }

    // The disconnect monitor, with the callback that releases the peer's chunks.
    method PeerGone(p: Peer)
      requires Valid() && p.id in swarm.peers && swarm.peers[p.id] == p
      modifies swarm, swarm.tracker.availability, sched
      ensures Valid()
      ensures sched.Abs() == DisconnectOf(old(sched.Abs()), p.id)
    {
      swarm.peers := swarm.peers - {p.id};
      swarm.tracker.RemovePeer(p.id);
      var inFlight := p.InFlightChunks();
      if |inFlight| > 0 {
        sched.ReleaseInFlight(inFlight);
      }
    }
  }
}
