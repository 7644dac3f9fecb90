/** One remote peer (internal/peer/peer.go): its bitfield, its in-flight requests and its speed.
    Times and speeds are reals; the write queue is kept as the list of REQUEST batches handed
    to Send. */
module Peers {
  import opened Bytes
  import opened Bitfield
  import opened Sets

  datatype PeerState = PeerState(
    inFlight: map<nat, real>,       // chunk index to request time
    speed: real,
    bits: Option<seq<byte>>,
    requested: seq<seq<nat>>)

  const NEW_PEER := PeerState(map[], 0.0, None, [])

  function HasChunk(p: PeerState, index: nat): bool {
    p.bits.Some? && index / 8 < |p.bits.value| && HasBit(p.bits.value, index)
  }

  // A piece arrived: the request is no longer outstanding and the speed average moves.
  function Clear(p: PeerState, index: nat, size: nat, now: real): PeerState {
    if index !in p.inFlight then p
    else
      var elapsed := now - p.inFlight[index];
      var speed := if elapsed > 0.0 then 0.7 * p.speed + 0.3 * (size as real / elapsed) else p.speed;
      p.(inFlight := p.inFlight - {index}, speed := speed)
  }

  // An answer moves the speed estimate three tenths of the way to the measured rate; nothing else
  // does.
  lemma ClearMovesSpeed(p: PeerState, index: nat, size: nat, now: real)
    ensures var q := Clear(p, index, size, now);
            if index in p.inFlight && now > p.inFlight[index] then
              var rate := size as real / (now - p.inFlight[index]);
              q.speed - rate == 0.7 * (p.speed - rate)
            else q.speed == p.speed
    ensures Clear(p, index, size, now).inFlight == p.inFlight - {index}
  {
    if index !in p.inFlight {
      assert p.inFlight - {index} == p.inFlight;
    }
  }

  function Expired(p: PeerState, timeout: real, now: real): set<nat> {
    set i | i in p.inFlight && now - p.inFlight[i] > timeout
  }

  function Halved(speed: real, times: nat): real {
    if times == 0 then speed else Halved(speed, times - 1) * 0.5
  }

  // Requests older than the timeout are given up, each halving the estimated speed.
  function Expire(p: PeerState, timeout: real, now: real): PeerState {
    GiveUp(p, Expired(p, timeout, now))
  }

  function GiveUp(p: PeerState, gone: set<nat>): PeerState {
    p.(inFlight := p.inFlight - gone, speed := Halved(p.speed, |gone|))
  }

  lemma GiveUpOneMore(p: PeerState, gone: set<nat>, i: nat)
    requires i !in gone
    ensures var q := GiveUp(p, gone);
            GiveUp(p, gone + {i}) == q.(inFlight := q.inFlight - {i}, speed := q.speed * 0.5)
  {
    assert p.inFlight - (gone + {i}) == (p.inFlight - gone) - {i};
  }

  // One more element of the rest has been looked at.
  lemma OneMoreSeen(all: set<nat>, rest: set<nat>, i: nat)
    requires i in rest
    ensures all - (rest - {i}) == (all - rest) + if i in all then {i} else {}
    ensures i !in all - rest && |rest - {i}| < |rest|
  {}

  function Mark(p: PeerState, indices: seq<nat>, now: real): PeerState {
    p.(inFlight := p.inFlight + map i | i in indices :: now)
  }

  lemma MarkNone(p: PeerState, now: real)
    ensures Mark(p, [], now) == p
  {
    assert p.inFlight + (map i | i in [] :: now) == p.inFlight;
  }

  lemma MarkOneMore(p: PeerState, xs: seq<nat>, x: nat, now: real)
    ensures Mark(Mark(p, xs, now), [x], now) == Mark(p, xs + [x], now)
  {
    var twice, once := Mark(Mark(p, xs, now), [x], now).inFlight, Mark(p, xs + [x], now).inFlight;
    forall i
      ensures i in twice <==> i in once
      ensures i in twice ==> twice[i] == once[i]
    {
      assert i in xs + [x] <==> i in xs || i == x;
    }
    assert twice == once;
  }

  // RequestChunks for this peer: nothing happens without a batch.
  function Request(p: PeerState, batch: seq<nat>, now: real): PeerState {
    if batch == [] then p else Mark(p, batch, now).(requested := p.requested + [batch])
  }

  // A HAVE message sets a bit of the peer's bitfield, if that bitfield is long enough.
  function WithHave(p: PeerState, index: nat): PeerState {
    if p.bits.Some? && index / 8 < |p.bits.value| then p.(bits := Some(WithBit(p.bits.value, index))) else p
  }

  class Peer {
    const id: PeerId
    var inFlight: map<nat, real>
    var speed: real
    var bitfield: Option<seq<byte>>
    var requested: seq<seq<nat>>

    ghost function Abs(): PeerState
      reads this
    {
      PeerState(inFlight, speed, bitfield, requested)
    }

    constructor (id: PeerId)
      ensures this.id == id && Abs() == NEW_PEER
    {
      this.id := id;
      inFlight := map[];
      speed := 0.0;
      bitfield := None;
      requested := [];
    }

    method SetBitfield(bf: seq<byte>)
      modifies this
      ensures Abs() == old(Abs()).(bits := Some(bf))
    {
      bitfield := Some(bf);
    }

    method Have(index: nat)
      modifies this
      ensures Abs() == WithHave(old(Abs()), index)
    {
      if bitfield.Some? && index / 8 < |bitfield.value| {
        bitfield := Some(WithBit(bitfield.value, index));
      }
    }

    method MarkInFlight(index: nat, now: real)
      modifies this
      ensures Abs() == Mark(old(Abs()), [index], now)
    {
      inFlight := inFlight[index := now];
      assert inFlight == old(inFlight) + map i | i in [index] :: now;
    }

    // The per-peer part of Swarm.RequestChunks.
    method RequestBatch(batch: seq<nat>, now: real)
      modifies this
      ensures Abs() == Mark(old(Abs()), batch, now).(requested := old(requested) + [batch])
    {
      MarkNone(Abs(), now);
      for k := 0 to |batch|
        invariant Abs() == Mark(old(Abs()), batch[..k], now)
      {
        MarkInFlight(batch[k], now);
        MarkOneMore(old(Abs()), batch[..k], batch[k], now);
        assert batch[..k + 1] == batch[..k] + [batch[k]];
      }
      assert batch[..|batch|] == batch;
      requested := requested + [batch];
    }

    method ClearInFlight(index: nat, size: nat, now: real)
      modifies this
      ensures Abs() == Clear(old(Abs()), index, size, now)
    {
      if index in inFlight {
        var elapsed := now - inFlight[index];
        if elapsed > 0.0 {
          var rate := size as real / elapsed;
          speed := 0.7 * speed + 0.3 * rate;
        }
        inFlight := inFlight - {index};
      }
    }

    // One request of the scan: given up if it is late.
    method TimeoutOne(i: nat, timeout: real, now: real, timedOut: seq<nat>, ghost was: PeerState, ghost gone: set<nat>)
      returns (timedOut': seq<nat>)
      requires i in was.inFlight && i !in gone && Abs() == GiveUp(was, gone) && Lists(timedOut, gone)
      modifies this
      ensures var late := gone + if i in Expired(was, timeout, now) then {i} else {};
              Abs() == GiveUp(was, late) && Lists(timedOut', late)
    {
      timedOut' := timedOut;
      if now - inFlight[i] > timeout {
        GiveUpOneMore(was, gone, i);
        ListsOneMore(timedOut, gone, i);
        timedOut' := timedOut + [i];
        inFlight := inFlight - {i};
        speed := speed * 0.5;
      } else {
        assert gone + {} == gone;
      }
    }

    // Returns the indices given up, in no particular order.
    method TimeoutInFlight(timeout: real, now: real) returns (timedOut: seq<nat>)
      modifies this
      ensures Abs() == Expire(old(Abs()), timeout, now)
      ensures Lists(timedOut, Expired(old(Abs()), timeout, now))
    {
      timedOut := [];
      var rest := inFlight.Keys;
      ghost var was, expired := Abs(), Expired(Abs(), timeout, now);
      assert expired - rest == {};
      while rest != {}
        invariant rest <= was.inFlight.Keys
        invariant Abs() == GiveUp(was, expired - rest) && Lists(timedOut, expired - rest)
        decreases |rest|
      {
        var i :| i in rest;
        OneMoreSeen(expired, rest, i);
        timedOut := TimeoutOne(i, timeout, now, timedOut, was, expired - rest);
        rest := rest - {i};
      }
      assert expired - rest == expired;
    }

    // The outstanding indices, in no particular order.
    method InFlightChunks() returns (indices: seq<nat>)
      ensures Lists(indices, inFlight.Keys)
    {
      indices := [];
      var rest := inFlight.Keys;
      while rest != {}
        invariant rest <= inFlight.Keys
        invariant Lists(indices, inFlight.Keys - rest)
        decreases |rest|
      {
        var i :| i in rest;
        OneMoreSeen(inFlight.Keys, rest, i);
        ListsOneMore(indices, inFlight.Keys - rest, i);
        indices := indices + [i];
        rest := rest - {i};
      }
      assert inFlight.Keys - rest == inFlight.Keys;
    }

    method InFlightCount() returns (n: nat)
      ensures n == |Abs().inFlight|
    {
      n := |inFlight|;
    }
  }

  // The connected peers' states.
  ghost function View(peers: map<PeerId, Peer>): map<PeerId, PeerState>
    reads peers.Values
  {
    map id | id in peers :: peers[id].Abs()
  }
}
