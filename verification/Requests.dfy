/** What a tick does to the requests: which are given up, which are made, and what is sent. */
module Requests {
  import opened Bytes
  import opened Chunker
  import opened Peers
  import opened Strategy
  import opened Engine
  import opened Ownership
  import opened Completion
  import opened Loads
  import opened Runs
  import opened Sets

  // ---------------------------------------------------------------- timeouts

  lemma ExpireTimes(p: PeerState, now: real)
    ensures var q := Expire(p, REQUEST_TIMEOUT, now);
            && (forall i :: i in q.inFlight <==> i in p.inFlight && now - p.inFlight[i] <= 3.0)
            && (forall i | i in q.inFlight :: q.inFlight[i] == p.inFlight[i])
            && q.requested == p.requested
  {}

  lemma RequestTimes(p: PeerState, batch: seq<nat>, now: real)
    ensures var q := Request(p, batch, now);
            && (forall i :: i in q.inFlight <==> i in p.inFlight || i in batch)
            && (forall i | i in q.inFlight :: q.inFlight[i] == if i in batch then now else p.inFlight[i])
            && q.requested == p.requested + (if batch == [] then [] else [batch])
  {}

  // How a tick changes one peer.
  lemma TickedPeer(s: State, now: real, cands: seq<Candidate>, rejected: set<nat>, id: PeerId) returns (batch: seq<nat>)
    requires Inv(s, rejected) && Enabled(s, Tick(now, cands)) && id in s.peers
    ensures batch == Batch(TickAssignments(s, now, cands), id)
    ensures TickOf(s, now, cands).peers[id] == Request(Expire(s.peers[id], REQUEST_TIMEOUT, now), batch, now)
    ensures forall i | i in Expire(s.peers[id], REQUEST_TIMEOUT, now).inFlight :: i !in batch
  {
    var t, asg := AfterTimeouts(s, now), TickAssignments(s, now, cands);
    batch := Batch(asg, id);
    TickKeepsInv(s, now, cands, rejected);
    TimeoutsKeepInv(s, now, rejected);
    BatchIsNew(t, asg, rejected, id);
    forall i | i in t.peers[id].inFlight
      ensures i !in batch
    {
      assert i in batch ==> i in ToSet(batch);
    }
  }

  // After a tick no request is more than three seconds old; those that were not keep their times;
  // and all others are made now.
  lemma TickTimes(s: State, now: real, cands: seq<Candidate>, rejected: set<nat>, id: PeerId)
    requires Inv(s, rejected) && Enabled(s, Tick(now, cands)) && id in s.peers
    ensures var p, q := s.peers[id].inFlight, TickOf(s, now, cands).peers[id].inFlight;
            && (forall i | i in q :: now - q[i] <= 3.0)
            && (forall i | i in p && now - p[i] <= 3.0 :: i in q && q[i] == p[i])
            && (forall i | i in q :: (i in p && now - p[i] <= 3.0) || q[i] == now)
  {
    var batch := TickedPeer(s, now, cands, rejected, id);
    ExpireTimes(s.peers[id], now);
    RequestTimes(Expire(s.peers[id], REQUEST_TIMEOUT, now), batch, now);
  }

  // A chunk is in the scheduler's set after a tick exactly if it is asked for, or was there and is
  // not more than three seconds overdue at anyone.
  lemma SchedulerKeepsExactly(s: State, now: real, cands: seq<Candidate>, i: nat)
    ensures i in TickOf(s, now, cands).inFlight <==>
            i in Chunks(TickAssignments(s, now, cands))
            || (i in s.inFlight && forall id | id in s.peers && i in s.peers[id].inFlight ::
                                     now - s.peers[id].inFlight[i] <= 3.0)
  {
    var t := AfterTimeouts(s, now);
    if i in TimedOut(s.peers, now) {
      var id :| id in s.peers && i in Expired(s.peers[id], REQUEST_TIMEOUT, now);
      assert now - s.peers[id].inFlight[i] > 3.0;
    }
    forall id | id in s.peers && i in s.peers[id].inFlight && i !in TimedOut(s.peers, now)
      ensures now - s.peers[id].inFlight[i] <= 3.0
    {
      assert i !in Expired(s.peers[id], REQUEST_TIMEOUT, now);
    }
  }

  function Power(n: nat): real {
    if n == 0 then 1.0 else 2.0 * Power(n - 1)
  }

  // n halvings.
  lemma {:induction false} HalvedTimesPower(speed: real, n: nat)
    ensures Halved(speed, n) * Power(n) == speed
  {
    if n > 0 {
      HalvedTimesPower(speed, n - 1);
      var h, p := Halved(speed, n - 1), Power(n - 1);
      assert (h * 0.5) * (2.0 * p) == h * p;
    }
  }

  function Late(p: PeerState, now: real): set<nat> {
    set i | i in p.inFlight && now - p.inFlight[i] > 3.0
  }

  // Each request given up halves the peer's speed estimate.
  lemma TickHalvesSpeed(s: State, now: real, cands: seq<Candidate>, id: PeerId)
    requires id in s.peers
    ensures TickOf(s, now, cands).peers[id].speed == Halved(s.peers[id].speed, |Late(s.peers[id], now)|)
  {
    assert Late(s.peers[id], now) == Expired(s.peers[id], REQUEST_TIMEOUT, now);
  }

  // Silence costs no more than the timeout: when every request is overdue, the tick gives all of
  // them up and has its whole budget, but for the rejected chunks, to ask again.
  lemma OverdueTickAsks(s: State, host: PeerId, rejected: set<nat>, now: real, cands: seq<Candidate>)
    requires Inv(s, rejected) && HostListed(s, host) && Enabled(s, Tick(now, cands))
    requires forall id, i | OwnedBy(s, id, i) :: now - s.peers[id].inFlight[i] > 3.0
    ensures var asg := TickAssignments(s, now, cands);
            && |asg| == |Chunks(asg)| == Min(16 - |rejected|, |Missing(s)| - |rejected|)
            && Chunks(asg) <= Missing(s) - rejected
  {
    var t := AfterTimeouts(s, now);
    TimeoutsKeepInv(s, now, rejected);
    forall id, i
      ensures !OwnedBy(t, id, i)
    {
      ExpiredGone(s, now, id, i);
    }
    AllRejected(t, rejected);
    assert Missing(t) == Missing(s);
    NothingExpires(t, now);
    TickAsks(t, host, rejected, now, cands);
  }

  // A piece from a connected peer settles that peer's request for the chunk, verified or not, and
  // moves its speed estimate three tenths of the way to the rate of this answer. No other peer is
  // affected.
  lemma PieceSettles(s: State, from: PeerId, index: nat, size: nat, good: bool, now: real)
    requires from in s.peers
    ensures var t := PieceOf(s, from, index, size, good, now); var p, q := s.peers[from], t.peers[from];
            && t.peers == s.peers[from := q]
            && q == p.(inFlight := p.inFlight - {index}, speed := q.speed)
            && if index in p.inFlight && now > p.inFlight[index] then
                 var rate := size as real / (now - p.inFlight[index]);
                 q.speed - rate == 0.7 * (p.speed - rate)
               else q.speed == p.speed
  {
    ClearMovesSpeed(s.peers[from], index, size, now);
  }

  // ---------------------------------------------------------------- what is sent

  // The chunks appear among the candidates in this order.
  predicate InOrderOf(chunks: seq<nat>, cands: seq<Candidate>) {
    chunks == [] ||
    (cands != [] && if chunks[0] == cands[0].index then InOrderOf(chunks[1..], cands[1..])
                    else InOrderOf(chunks, cands[1..]))
  }

  predicate NoneTwice(chunks: seq<nat>) {
    forall x, y | 0 <= x < y < |chunks| :: chunks[x] != chunks[y]
  }

  lemma {:induction false} BatchInOrder(cands: seq<Candidate>, peers: map<PeerId, PeerState>, budget: nat, id: PeerId)
    requires DistinctChunks(cands)
    ensures InOrderOf(Batch(Assign(cands, peers, budget), id), cands)
  {
    if cands != [] && budget > 0 {
      var tail := cands[1..];
      match Select(peers, cands[0].holders) {
        case None =>
          BatchInOrder(tail, peers, budget, id);
          FirstNotInBatch(cands, peers, budget, id);
          ConsInOrder(Batch(Assign(tail, peers, budget), id), cands);
        case Some(p) =>
          var rest := Assign(tail, peers, budget - 1);
          var asg := [Assignment(p, cands[0].index)] + rest;
          assert asg == Assign(cands, peers, budget) && asg[1..] == rest;
          BatchInOrder(tail, peers, budget - 1, id);
          FirstNotInBatch(cands, peers, budget - 1, id);
          ConsInOrder(Batch(rest, id), cands);
          assert Batch(asg, id) == if p == id then [cands[0].index] + Batch(rest, id) else Batch(rest, id);
      }
    }
  }

  lemma ConsInOrder(chunks: seq<nat>, cands: seq<Candidate>)
    requires cands != [] && InOrderOf(chunks, cands[1..]) && cands[0].index !in chunks
    ensures InOrderOf(chunks, cands) && InOrderOf([cands[0].index] + chunks, cands)
  {
    assert ([cands[0].index] + chunks)[1..] == chunks;
  }

  lemma FirstNotInBatch(cands: seq<Candidate>, peers: map<PeerId, PeerState>, budget: nat, id: PeerId)
    requires cands != [] && DistinctChunks(cands)
    ensures cands[0].index !in Batch(Assign(cands[1..], peers, budget), id)
  {
    var asg := Assign(cands[1..], peers, budget);
    InBatch(asg, id, cands[0].index);
    AssignSound(cands[1..], peers, budget);
    forall a | a in asg
      ensures a.chunk != cands[0].index
    {
      assert FromCandidate(peers, cands[1..], a);
    }
  }

  lemma {:induction false} BatchOnce(asg: seq<Assignment>, id: PeerId)
    requires forall x, y | 0 <= x < y < |asg| :: asg[x].chunk != asg[y].chunk
    ensures NoneTwice(Batch(asg, id))
  {
    if asg != [] {
      BatchOnce(asg[1..], id);
      InBatch(asg[1..], id, asg[0].chunk);
    }
  }

  // A tick sends a peer at most one REQUEST. It names exactly the chunks that the peer owes from
  // now on and did not owe, or not any more, before: each once, in the order of priority.
  lemma TickSends(s: State, now: real, cands: seq<Candidate>, rejected: set<nat>, id: PeerId) returns (batch: seq<nat>)
    requires Inv(s, rejected) && Enabled(s, Tick(now, cands)) && id in s.peers
    ensures var p, q := s.peers[id], TickOf(s, now, cands).peers[id];
            && q.requested == p.requested + (if batch == [] then [] else [batch])
            && (forall i :: i in batch <==>
                  i in q.inFlight && !(i in p.inFlight && now - p.inFlight[i] <= 3.0))
            && NoneTwice(batch) && InOrderOf(batch, cands)
  {
    batch := TickedPeer(s, now, cands, rejected, id);
    ExpireTimes(s.peers[id], now);
    RequestTimes(Expire(s.peers[id], REQUEST_TIMEOUT, now), batch, now);
    TickKeepsInv(s, now, cands, rejected);
    BatchOnce(TickAssignments(s, now, cands), id);
    var t := AfterTimeouts(s, now);
    if Budget(t) > 0 {
      BatchInOrder(cands, t.peers, Budget(t), id);
    }
  }

  // Some REQUEST sent to the peer named the chunk.
  predicate WasSent(p: PeerState, i: nat) {
    exists b :: b in p.requested && i in b
  }

  ghost predicate OwedWasSent(s: State) {
    forall id, i | OwnedBy(s, id, i) :: WasSent(s.peers[id], i)
  }

  lemma TickKeepsSent(s: State, now: real, cands: seq<Candidate>)
    requires OwedWasSent(s)
    ensures OwedWasSent(TickOf(s, now, cands))
  {
    var u, asg := TickOf(s, now, cands), TickAssignments(s, now, cands);
    forall id, i | OwnedBy(u, id, i)
      ensures WasSent(u.peers[id], i)
    {
      var batch := Batch(asg, id);
      if i in batch {
        assert batch in u.peers[id].requested;
      } else {
        assert OwnedBy(s, id, i) && WasSent(s.peers[id], i);
        var b :| b in s.peers[id].requested && i in b;
        assert b in u.peers[id].requested;
      }
    }
  }

  lemma StepKeepsSent(s: State, e: Event)
    requires OwedWasSent(s) && Enabled(s, e)
    ensures OwedWasSent(Next(s, e))
  {
    if e.Tick? {
      TickKeepsSent(s, e.now, e.cands);
    } else {
      var t := Next(s, e);
      forall id, i | OwnedBy(t, id, i)
        ensures WasSent(t.peers[id], i)
      {
        assert OwnedBy(s, id, i) && t.peers[id].requested == s.peers[id].requested;
        assert WasSent(s.peers[id], i);
      }
    }
  }

  lemma {:induction false} RunKeepsSent(s: State, events: seq<Event>)
    requires OwedWasSent(s) && Legal(s, events)
    ensures OwedWasSent(Run(s, events))
    decreases |events|
  {
    if events != [] {
      StepKeepsSent(s, events[0]);
      RunKeepsSent(Next(s, events[0]), events[1..]);
    }
  }

  // Over every run, a peer owes nothing that no REQUEST sent to it has named.
  lemma EveryDebtWasSent(s0: State, events: seq<Event>, id: PeerId, i: nat)
    requires Initial(s0) && Legal(s0, events) && OwnedBy(Run(s0, events), id, i)
    ensures exists b :: b in Run(s0, events).peers[id].requested && i in b
  {
    RunKeepsSent(s0, events);
    assert WasSent(Run(s0, events).peers[id], i);
  }
}
