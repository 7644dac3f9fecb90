/** How many requests one peer can have outstanding: when the limit of four is kept, and how far it
    can be missed. */
module Loads {
  import opened Bytes
  import opened Chunker
  import opened Peers
  import opened Strategy
  import opened Engine
  import opened Ownership
  import opened Completion
  import opened Runs
  import opened Scenario
  import opened Sets

  // ---------------------------------------------------------------- the load after a tick

  // How many candidates go to the peer before the budget runs out, each chosen with the loads as
  // they were before any request was sent.
  function Chosen(cands: seq<Candidate>, peers: map<PeerId, PeerState>, budget: nat, id: PeerId): nat {
    if cands == [] || budget == 0 then 0
    else
      match Select(peers, cands[0].holders)
      case None => Chosen(cands[1..], peers, budget, id)
      case Some(p) => (if p == id then 1 else 0) + Chosen(cands[1..], peers, budget - 1, id)
  }

  lemma {:induction false} BatchIsChosen(cands: seq<Candidate>, peers: map<PeerId, PeerState>, budget: nat, id: PeerId)
    ensures |Batch(Assign(cands, peers, budget), id)| == Chosen(cands, peers, budget, id)
  {
    if cands != [] && budget > 0 {
      match Select(peers, cands[0].holders) {
        case None => BatchIsChosen(cands[1..], peers, budget, id);
        case Some(p) =>
          var rest := Assign(cands[1..], peers, budget - 1);
          assert ([Assignment(p, cands[0].index)] + rest)[1..] == rest;
          BatchIsChosen(cands[1..], peers, budget - 1, id);
      }
    }
  }

  // A batch repeats nothing.
  lemma {:induction false} BatchToSet(asg: seq<Assignment>, id: PeerId)
    requires forall x, y | 0 <= x < y < |asg| :: asg[x].chunk != asg[y].chunk
    ensures |ToSet(Batch(asg, id))| == |Batch(asg, id)|
  {
    if asg != [] {
      var rest := asg[1..];
      BatchToSet(rest, id);
      if asg[0].peer == id {
        InBatch(rest, id, asg[0].chunk);
        assert asg[0].chunk !in Batch(rest, id);
        ConsToSet(asg[0].chunk, Batch(rest, id));
      } else {
        assert Batch(asg, id) == Batch(rest, id);
      }
    }
  }

  lemma ConsToSet(x: nat, xs: seq<nat>)
    requires x !in xs && |ToSet(xs)| == |xs|
    ensures |ToSet([x] + xs)| == |[x] + xs|
  {
    assert ToSet([x] + xs) == ToSet(xs) + {x};
  }

  lemma RequestSize(p: PeerState, batch: seq<nat>, now: real)
    ensures |Request(p, batch, now).inFlight| <= |p.inFlight| + |batch|
    ensures |ToSet(batch)| == |batch| && ToSet(batch) !! p.inFlight.Keys ==>
            |Request(p, batch, now).inFlight| == |p.inFlight| + |batch|
  {
    ToSetSize(batch);
    var m := Request(p, batch, now).inFlight;
    assert m.Keys == p.inFlight.Keys + ToSet(batch);
    assert |m| == |m.Keys| && |p.inFlight| == |p.inFlight.Keys|;
  }

  // No peer is asked again for what it owes.
  lemma BatchIsNew(t: State, asg: seq<Assignment>, rejected: set<nat>, id: PeerId)
    requires Inv(t, rejected) && FreshAssignments(t, asg) && id in t.peers
    ensures ToSet(Batch(asg, id)) !! t.peers[id].inFlight.Keys
  {
    forall i | i in ToSet(Batch(asg, id))
      ensures i !in t.peers[id].inFlight
    {
      InBatch(asg, id, i);
      assert Assignment(id, i).chunk !in t.have && Assignment(id, i).chunk !in t.inFlight;
      assert OwnedBy(t, id, i) <==> i in t.peers[id].inFlight;
    }
  }

  // A peer's load grows by exactly the candidates it is chosen for.
  lemma LoadAfter(s: State, now: real, cands: seq<Candidate>, rejected: set<nat>, id: PeerId)
    requires Inv(s, rejected) && Enabled(s, Tick(now, cands)) && id in s.peers
    ensures var t := AfterTimeouts(s, now);
            |TickOf(s, now, cands).peers[id].inFlight|
            == |t.peers[id].inFlight| + Chosen(cands, t.peers, Budget(t), id)
  {
    var t, asg := AfterTimeouts(s, now), TickAssignments(s, now, cands);
    TickKeepsInv(s, now, cands, rejected);
    TimeoutsKeepInv(s, now, rejected);
    BatchIsChosen(cands, t.peers, Budget(t), id);
    BatchToSet(asg, id);
    BatchIsNew(t, asg, rejected, id);
    RequestSize(t.peers[id], Batch(asg, id), now);
  }

  ghost predicate WithinLimit(s: State) {
    forall id | id in s.peers :: |s.peers[id].inFlight| <= MAX_IN_FLIGHT_PER_PEER
  }

  // The limit of four requests a peer holds after a tick exactly if it holds, for every peer, of
  // the load before the requests and the candidates the peer is chosen for together.
  lemma LimitKeptExactly(s: State, now: real, cands: seq<Candidate>, rejected: set<nat>)
    requires Inv(s, rejected) && Enabled(s, Tick(now, cands))
    ensures var t := AfterTimeouts(s, now);
            WithinLimit(TickOf(s, now, cands)) <==>
            forall id | id in t.peers ::
              |t.peers[id].inFlight| + Chosen(cands, t.peers, Budget(t), id) <= MAX_IN_FLIGHT_PER_PEER
  {
    forall id | id in s.peers
      ensures var t := AfterTimeouts(s, now);
              |TickOf(s, now, cands).peers[id].inFlight|
              == |t.peers[id].inFlight| + Chosen(cands, t.peers, Budget(t), id)
    {
      LoadAfter(s, now, cands, rejected, id);
    }
  }

  // A sole holder gets the whole budget at once.
  lemma SoleHolderGetsAll(s: State, host: PeerId, stuck: set<nat>, now: real, cands: seq<Candidate>)
    requires Quiet(s, host, stuck) && Enabled(s, Tick(now, cands)) && s.peers.Keys == {host}
    ensures var t := TickOf(s, now, cands);
            host in t.peers && |t.peers[host].inFlight| == Min(16 - |stuck|, |Missing(s)| - |stuck|)
  {
    TickAsks(s, host, stuck, now, cands);
    TickOwes(s, host, stuck, now, cands);
    HoldsAll(TickOf(s, now, cands), host, TickAssignments(s, now, cands));
  }

  lemma HoldsAll(t: State, host: PeerId, asg: seq<Assignment>)
    requires host in t.peers && (forall id, i :: OwnedBy(t, id, i) <==> Assignment(id, i) in asg && i in Chunks(asg))
    requires forall a | a in asg :: a.peer == host
    ensures |t.peers[host].inFlight| == |Chunks(asg)|
  {
    forall i: nat
      ensures i in t.peers[host].inFlight <==> i in Chunks(asg)
    {
      assert OwnedBy(t, host, i) <==> i in t.peers[host].inFlight;
      if i in Chunks(asg) {
        var a :| a in asg && a.chunk == i;
        assert a == Assignment(host, i);
      }
    }
    assert t.peers[host].inFlight.Keys == Chunks(asg);
  }

  // ---------------------------------------------------------------- over every run

  const MAX_LOAD: nat := 19

  ghost predicate LoadsBounded(s: State) {
    forall id | id in s.peers :: |s.peers[id].inFlight| <= MAX_LOAD
  }

  // A peer with four requests or more is chosen for nothing.
  lemma {:induction false} SaturatedNotChosen(
    cands: seq<Candidate>, peers: map<PeerId, PeerState>, budget: nat, id: PeerId)
    requires !Available(peers, id)
    ensures Chosen(cands, peers, budget, id) == 0
  {
    if cands != [] && budget > 0 {
      SelectIsBest(peers, cands[0].holders);
      SaturatedNotChosen(cands[1..], peers, budget, id);
      SaturatedNotChosen(cands[1..], peers, budget - 1, id);
    }
  }

  lemma {:induction false} ChosenWithinBudget(
    cands: seq<Candidate>, peers: map<PeerId, PeerState>, budget: nat, id: PeerId)
    ensures Chosen(cands, peers, budget, id) <= budget
  {
    if cands != [] && budget > 0 {
      ChosenWithinBudget(cands[1..], peers, budget, id);
      ChosenWithinBudget(cands[1..], peers, budget - 1, id);
    }
  }

  lemma TickKeepsLoads(s: State, now: real, cands: seq<Candidate>)
    requires LoadsBounded(s)
    ensures LoadsBounded(TickOf(s, now, cands))
  {
    var t := AfterTimeouts(s, now);
    forall id | id in t.peers
      ensures |TickOf(s, now, cands).peers[id].inFlight| <= MAX_LOAD
    {
      SubsetSize(t.peers[id].inFlight.Keys, s.peers[id].inFlight.Keys);
      assert |t.peers[id].inFlight.Keys| == |t.peers[id].inFlight|;
      BatchIsChosen(cands, t.peers, Budget(t), id);
      RequestSize(t.peers[id], Batch(TickAssignments(s, now, cands), id), now);
      ChosenWithinBudget(cands, t.peers, Budget(t), id);
      if !Available(t.peers, id) {
        SaturatedNotChosen(cands, t.peers, Budget(t), id);
      }
    }
  }

  lemma StepKeepsLoads(s: State, e: Event)
    requires LoadsBounded(s) && Enabled(s, e)
    ensures LoadsBounded(Next(s, e))
  {
    if e.Tick? {
      TickKeepsLoads(s, e.now, e.cands);
    } else if e.Piece? && e.from in s.peers {
      SubsetSize(Next(s, e).peers[e.from].inFlight.Keys, s.peers[e.from].inFlight.Keys);
      assert |Next(s, e).peers[e.from].inFlight.Keys| == |Next(s, e).peers[e.from].inFlight|;
    }
  }

  lemma {:induction false} RunKeepsLoads(s: State, events: seq<Event>)
    requires LoadsBounded(s) && Legal(s, events)
    ensures LoadsBounded(Run(s, events))
    decreases |events|
  {
    if events != [] {
      StepKeepsLoads(s, events[0]);
      RunKeepsLoads(Next(s, events[0]), events[1..]);
    }
  }

  // No peer ever has more than 3 + 16 requests outstanding ...
  lemma LoadBound(s0: State, events: seq<Event>)
    requires Initial(s0) && Legal(s0, events)
    ensures forall id | id in Run(s0, events).peers :: |Run(s0, events).peers[id].inFlight| <= MAX_LOAD
  {
    RunKeepsLoads(s0, events);
  }

  // ... and one can have as many: the host owes three chunks that another peer has delivered
  // first, and gets the whole budget on top.
  lemma MaxLoadIsReached(host: PeerId, other: PeerId) returns (s: State)
    requires other != host
    ensures Reachable(s) && host in s.peers && |s.peers[host].inFlight| == MAX_LOAD
  {
    var before := Overtaken(host, other, 3);
    NoRange(16);
    s := TickScene(before, host, 16, Range(13, 16));
    RangeJoin(13, 16, 32);
    SceneLoad(s, host, Range(0, 16), Range(16, 32), Range(13, 16) + Range(16, 32));
  }

  lemma SceneLoad(s: State, host: PeerId, have: set<nat>, inFlight: set<nat>, owed: set<nat>)
    requires Scene(s, host, have, inFlight, owed)
    ensures host in s.peers && |s.peers[host].inFlight| == |owed|
  {
    assert s.peers[host].inFlight.Keys == owed;
    assert |s.peers[host].inFlight| == |s.peers[host].inFlight.Keys|;
  }

  lemma RangeJoin(a: nat, b: nat, c: nat)
    requires a <= b <= c
    ensures |Range(a, b) + Range(b, c)| == c - a
  {
    assert Range(a, b) + Range(b, c) == Range(a, c);
  }
}
