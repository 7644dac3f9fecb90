/** The objects behind the engine: the swarm (internal/peer/swarm.go), the scheduler
    (internal/scheduler/scheduler.go) and the joiner's callbacks (cmd/join.go:80-99). Each method is
    proved to take the engine's step. */
module Joiner {
  import opened Bytes
  import opened Peers
  import opened Strategy
  import opened Engine
  import opened Sets
  import S = Store
  import T = Tracker

  class Swarm {
    const tracker: T.Tracker
    var peers: map<PeerId, Peer>

    ghost predicate Valid()
      reads this
    {
      forall id | id in peers :: peers[id].id == id
    }

    constructor (tracker: T.Tracker)
      ensures Valid() && this.tracker == tracker && peers == map[]
    {
      this.tracker := tracker;
      peers := map[];
    }

    method RequestChunks(id: PeerId, batch: seq<nat>, now: real)
      requires Valid() && batch != []
      modifies peers.Values
      ensures Valid()
      ensures forall q | q in peers ::
        peers[q].Abs() == if q == id then Request(old(peers[q].Abs()), batch, now) else old(peers[q].Abs())
    {
      if id !in peers {
        return;
      }
      assert forall q | q in peers && q != id :: peers[q] != peers[id];
      peers[id].RequestBatch(batch, now);
    }

    // All peers but those in `rest` have given up their late requests; `was` is how it was before.
    ghost predicate ExpiredExcept(was: map<PeerId, PeerState>, rest: set<PeerId>, now: real)
      reads this, peers.Values
    {
      && was.Keys == peers.Keys
      && forall id | id in peers ::
           peers[id].Abs() == if id in rest then was[id] else Expire(was[id], REQUEST_TIMEOUT, now)
    }

    method ExpireOne(id: PeerId, now: real, ghost was: map<PeerId, PeerState>, ghost rest: set<PeerId>)
      returns (gone: seq<nat>)
      requires Valid() && id in peers && id in rest && ExpiredExcept(was, rest, now)
      modifies peers.Values
      ensures ExpiredExcept(was, rest - {id}, now)
      ensures ToSet(gone) == Expired(was[id], REQUEST_TIMEOUT, now)
    {
      assert forall q | q in peers && q != id :: peers[q] != peers[id];
      gone := peers[id].TimeoutInFlight(REQUEST_TIMEOUT, now);
    }

    // The tick's scan for requests that took too long.
    method ExpireRequests(now: real) returns (timedOut: seq<nat>)
      requires Valid()
      modifies peers.Values
      ensures Valid() && View(peers) == ExpireAll(old(View(peers)), now)
      ensures ToSet(timedOut) == TimedOut(old(View(peers)), now)
    {
      timedOut := [];
      ghost var was := View(peers);
      var rest := peers.Keys;
      while rest != {}
        invariant Valid() && rest <= peers.Keys && ExpiredExcept(was, rest, now)
        invariant ToSet(timedOut) == TimedOut(was - rest, now)
        decreases |rest|
      {
        var id :| id in rest;
        Without(rest, id, peers.Keys);
        TimedOutOneMore(was, rest, id, now);
        var gone := ExpireOne(id, now, was, rest);
        rest := rest - {id};
        ToSetConcat(timedOut, gone);
        timedOut := timedOut + gone;
      }
      WithoutNone(was);
      ExpiredAll(View(peers), was, now);
    }

    // Map iteration: the batches go out in no particular order.
    method SendEach(batches: map<PeerId, seq<nat>>, now: real, ghost was: map<PeerId, PeerState>)
      requires Valid() && peers.Keys == was.Keys && forall id | id in peers :: peers[id].Abs() == was[id]
      requires batches.Keys <= peers.Keys && forall id | id in batches :: batches[id] != []
      modifies peers.Values
      ensures Valid()
      ensures forall id | id in peers ::
        peers[id].Abs() == if id in batches then Request(was[id], batches[id], now) else was[id]
    {
      var rest := batches.Keys;
      while rest != {}
        invariant Valid() && rest <= batches.Keys
        invariant forall id | id in peers ::
          peers[id].Abs() == if id in batches && id !in rest then Request(was[id], batches[id], now) else was[id]
        decreases |rest|
      {
        var id :| id in rest;
        Without(rest, id, batches.Keys);
        rest := rest - {id};
        RequestChunks(id, batches[id], now);
      }
    }

    method SendBatches(batches: map<PeerId, seq<nat>>, ghost asg: seq<Assignment>, now: real)
      requires Valid() && batches == GroupBy(asg) && batches.Keys <= peers.Keys
      modifies peers.Values
      ensures Valid() && View(peers) == Requested(old(View(peers)), asg, now)
    {
      ghost var was := View(peers);
      GroupByBatches(asg);
      SendEach(batches, now, was);
      RequestedByGroup(View(peers), was, asg, now);
    }
  }

  lemma ExpiredAll(peers: map<PeerId, PeerState>, was: map<PeerId, PeerState>, now: real)
    requires peers.Keys == was.Keys && forall id | id in was :: peers[id] == Expire(was[id], REQUEST_TIMEOUT, now)
    ensures peers == ExpireAll(was, now)
  {}

  lemma TimedOutOneMore(peers: map<PeerId, PeerState>, rest: set<PeerId>, id: PeerId, now: real)
    requires id in rest && id in peers
    ensures TimedOut(peers - (rest - {id}), now)
         == TimedOut(peers - rest, now) + Expired(peers[id], REQUEST_TIMEOUT, now)
  {
    var before, after := peers - rest, peers - (rest - {id});
    forall i | i in TimedOut(after, now)
      ensures i in TimedOut(before, now) || i in Expired(peers[id], REQUEST_TIMEOUT, now)
    {
      var q :| q in after && i in Expired(after[q], REQUEST_TIMEOUT, now);
      assert q != id ==> q in before && before[q] == after[q];
    }
    forall i | i in TimedOut(before, now)
      ensures i in TimedOut(after, now)
    {
      var q :| q in before && i in Expired(before[q], REQUEST_TIMEOUT, now);
      assert q in after && after[q] == before[q];
    }
    forall i | i in Expired(peers[id], REQUEST_TIMEOUT, now)
      ensures i in TimedOut(after, now)
    {
      assert id in after && after[id] == peers[id];
    }
  }

  // batches holds each peer's assignments, and no empty batch.
  ghost predicate Grouped(batches: map<PeerId, seq<nat>>, asg: seq<Assignment>) {
    && (forall id | id in batches :: batches[id] != [] && batches[id] == Batch(asg, id))
    && (forall id | id !in batches :: Batch(asg, id) == [])
  }

  lemma RequestedByGroup(peers: map<PeerId, PeerState>, was: map<PeerId, PeerState>, asg: seq<Assignment>, now: real)
    requires peers.Keys == was.Keys
    requires var batches := GroupBy(asg);
             forall id | id in was :: peers[id] == if id in batches then Request(was[id], batches[id], now) else was[id]
    ensures peers == Requested(was, asg, now)
  {
    GroupByBatches(asg);
  }

  function WithChunk(batches: map<PeerId, seq<nat>>, a: Assignment): map<PeerId, seq<nat>> {
    batches[a.peer := (if a.peer in batches then batches[a.peer] else []) + [a.chunk]]
  }

  function GroupBy(asg: seq<Assignment>): map<PeerId, seq<nat>> {
    if asg == [] then map[] else WithChunk(GroupBy(asg[..|asg| - 1]), asg[|asg| - 1])
  }

  lemma GroupedSnoc(batches: map<PeerId, seq<nat>>, asg: seq<Assignment>, a: Assignment)
    requires Grouped(batches, asg)
    ensures Grouped(WithChunk(batches, a), asg + [a])
  {
    forall id
      ensures if id in WithChunk(batches, a) then WithChunk(batches, a)[id] == Batch(asg + [a], id)
              else Batch(asg + [a], id) == []
    {
      BatchSnoc(asg, a, id);
    }
  }

  lemma {:induction false} GroupByBatches(asg: seq<Assignment>)
    ensures Grouped(GroupBy(asg), asg)
  {
    if asg != [] {
      var init, last := asg[..|asg| - 1], asg[|asg| - 1];
      assert asg == init + [last];
      GroupByBatches(init);
      GroupedSnoc(GroupBy(init), init, last);
    }
  }

  lemma {:induction false} GroupByKeys(asg: seq<Assignment>, ids: set<PeerId>)
    requires forall a | a in asg :: a.peer in ids
    ensures GroupBy(asg).Keys <= ids
  {
    if asg != [] {
      assert asg[|asg| - 1] in asg;
      GroupByKeys(asg[..|asg| - 1], ids);
    }
  }

  lemma {:induction false} BatchSnoc(asg: seq<Assignment>, a: Assignment, id: PeerId)
    ensures Batch(asg + [a], id) == Batch(asg, id) + if a.peer == id then [a.chunk] else []
  {
    var all := asg + [a];
    if asg == [] {
      assert all == [a] && all[1..] == [];
      assert Batch(all[1..], id) == [];
    } else {
      assert all[0] == asg[0] && all[1..] == asg[1..] + [a];
      BatchSnoc(asg[1..], a, id);
      var head := if asg[0].peer == id then [asg[0].chunk] else [];
      var tail := if a.peer == id then [a.chunk] else [];
      assert (head + Batch(asg[1..], id)) + tail == head + (Batch(asg[1..], id) + tail);
    }
  }

  class Scheduler {
    const store: S.Store
    const swarm: Swarm
    var cursor: int
    var inFlight: set<nat>
    var urgent: set<nat>

    ghost predicate Valid()
      reads this, swarm, store, store.bitfield, store.waiters.Values
    {
      && swarm.Valid() && store.Valid()
      && store.manifest.chunkCount == swarm.tracker.availability.Length
      && store.bitfield as object != swarm.tracker.availability as object
    }

    ghost function Abs(): State
      reads this, swarm, swarm.peers.Values, swarm.tracker.availability, store, store.bitfield
    {
      State(View(swarm.peers), swarm.tracker.availability[..], store.Abs().have, inFlight, urgent, cursor)
    }

    constructor (store: S.Store, swarm: Swarm)
      ensures this.store == store && this.swarm == swarm && inFlight == {} && urgent == {} && cursor == 0
    {
      this.store := store;
      this.swarm := swarm;
      cursor := 0;
      inFlight := {};
      urgent := {};
    }

    method SetCursor(at: int)
      requires Valid()
      modifies this`cursor
      ensures Valid() && Abs() == Next(old(Abs()), Event.SetCursor(at))
      ensures cursor == at
    {
      cursor := at;
    }

    method Demand(index: nat)
      requires Valid() && index < store.manifest.chunkCount
      modifies this`urgent
      ensures Valid() && Abs() == Next(old(Abs()), Event.Demand(index))
    {
      var has := store.HasChunk(index);
      if has {
        return;
      }
      urgent := urgent + {index};
    }

    method OnPieceReceived(index: nat)
      requires Valid()
      modifies this`inFlight, this`urgent
      ensures Valid()
      ensures Abs() == old(Abs()).(inFlight := old(inFlight) - {index}, urgent := old(urgent) - {index})
    {
      inFlight := inFlight - {index};
      urgent := urgent - {index};
    }

    method ReleaseInFlight(indices: seq<nat>)
      requires Valid()
      modifies this`inFlight
      ensures Valid() && Abs() == old(Abs()).(inFlight := old(inFlight) - ToSet(indices))
    {
      for k := 0 to |indices|
        invariant inFlight == old(inFlight) - ToSet(indices[..k])
      {
        inFlight := inFlight - {indices[k]};
        assert indices[..k + 1] == indices[..k] + [indices[k]];
      }
      assert indices[..|indices|] == indices;
    }

    // One turn of the assignment loop: the chunk is entered in the in-flight set as it is assigned.
    // `asg` is what was assigned so far and `all` what the whole loop assigns.
    method AssignOne(cands: seq<Candidate>, k: nat, left: nat, batches: map<PeerId, seq<nat>>,
                     ghost asg: seq<Assignment>, ghost all: seq<Assignment>, ghost before: set<nat>)
      returns (left': nat, batches': map<PeerId, seq<nat>>, ghost asg': seq<Assignment>)
      requires k < |cands| && left > 0 && Continues(all, asg, cands, k, View(swarm.peers), left)
      requires batches == GroupBy(asg) && inFlight == before + Chunks(asg)
      modifies this`inFlight
      ensures Continues(all, asg', cands, k + 1, old(View(swarm.peers)), left')
      ensures batches' == GroupBy(asg') && inFlight == before + Chunks(asg')
    {
      left', batches', asg' := left, batches, asg;
      ghost var view := View(swarm.peers);
      var chosen := SelectPeer(cands[k].holders, swarm.peers);
      ContinuesNext(all, asg, cands, k, view, left, chosen);
      if chosen.Some? {
        var a := Assignment(chosen.value, cands[k].index);
        OneMore(asg, a);
        batches' := WithChunk(batches, a);
        inFlight := inFlight + {a.chunk};
        left' := left - 1;
        asg' := asg + [a];
      }
    }

    // The assignment loop: candidates in order, grouped by peer for sending.
    method AssignLoop(cands: seq<Candidate>, budget: nat)
      returns (batches: map<PeerId, seq<nat>>, ghost asg: seq<Assignment>)
      modifies this`inFlight
      ensures asg == Assign(cands, View(swarm.peers), budget)
      ensures inFlight == old(inFlight) + Chunks(asg)
      ensures batches == GroupBy(asg)
    {
      batches := map[];
      asg := [];
      ghost var all := Assign(cands, View(swarm.peers), budget);
      var left := budget;
      var k := 0;
      assert cands[0..] == cands;
      while k < |cands| && left > 0
        invariant Continues(all, asg, cands, k, old(View(swarm.peers)), left)
        invariant batches == GroupBy(asg) && inFlight == old(inFlight) + Chunks(asg)
        decreases |cands| - k
      {
        left, batches, asg := AssignOne(cands, k, left, batches, asg, all, old(inFlight));
        k := k + 1;
      }
      ContinuesDone(all, asg, cands, k, View(swarm.peers), left);
    }

    // The first part of tick: requests that took too long are given up.
    method ReleaseTimedOut(now: real)
      requires Valid()
      modifies this`inFlight, swarm.peers.Values
      ensures Valid() && Abs() == AfterTimeouts(old(Abs()), now)
    {
      var timedOut := swarm.ExpireRequests(now);
      ReleaseInFlight(timedOut);
    }

    // The rest of tick: prioritize, assign, send.
    method Schedule(now: real, budget: nat) returns (ghost cands: seq<Candidate>)
      requires Valid()
      modifies this`inFlight, swarm.peers.Values
      ensures Valid() && CandidatesOf(old(Abs()), cands)
      ensures var asg := Assign(cands, old(Abs()).peers, budget);
              Abs() == old(Abs()).(inFlight := old(inFlight) + Chunks(asg),
                                   peers := Requested(old(Abs()).peers, asg, now))
    {
      var missing := store.MissingChunks();
      assert ToSet(missing) == Missing(Abs());
      var prioritized := PrioritizeChunks(missing, cursor, swarm.tracker, inFlight, urgent);
      cands := prioritized;
      assert CandidatesOf(Abs(), cands);
      var batches, asg := AssignLoop(prioritized, budget);
      AssignedPeers(prioritized, View(swarm.peers), budget);
      GroupByKeys(asg, swarm.peers.Keys);
      swarm.SendBatches(batches, asg, now);
    }

    // One scheduling cycle. `cands` is the priority order that was used, if any.
    method Tick(now: real) returns (ghost cands: seq<Candidate>)
      requires Valid()
      modifies this`inFlight, swarm.peers.Values
      ensures Valid()
      ensures Enabled(old(Abs()), Event.Tick(now, cands)) && Abs() == Next(old(Abs()), Event.Tick(now, cands))
    {
      ReleaseTimedOut(now);
      if |inFlight| >= MAX_TOTAL_IN_FLIGHT {
        cands := [];
        NothingRequested(Abs(), now);
        return;
      }
      cands := Schedule(now, MAX_TOTAL_IN_FLIGHT - |inFlight|);
    }
  }

  // What is left of the loop gives the rest of the assignments.
  ghost predicate Continues(all: seq<Assignment>, asg: seq<Assignment>, cands: seq<Candidate>, k: nat,
                            peers: map<PeerId, PeerState>, left: nat) {
    k <= |cands| && all == asg + Assign(cands[k..], peers, left)
  }

  lemma ContinuesNext(all: seq<Assignment>, asg: seq<Assignment>, cands: seq<Candidate>, k: nat,
                      peers: map<PeerId, PeerState>, left: nat, chosen: Option<PeerId>)
    requires Continues(all, asg, cands, k, peers, left) && k < |cands| && left > 0
    requires chosen == Select(peers, cands[k].holders)
    ensures match chosen
            case None => Continues(all, asg, cands, k + 1, peers, left)
            case Some(id) => Continues(all, asg + [Assignment(id, cands[k].index)], cands, k + 1, peers, left - 1)
  {
    assert cands[k..][0] == cands[k] && cands[k..][1..] == cands[k + 1..];
  }

  lemma ContinuesDone(all: seq<Assignment>, asg: seq<Assignment>, cands: seq<Candidate>, k: nat,
                      peers: map<PeerId, PeerState>, left: nat)
    requires Continues(all, asg, cands, k, peers, left) && (k == |cands| || left == 0)
    ensures all == asg
  {}

  lemma OneMore(asg: seq<Assignment>, a: Assignment)
    ensures Chunks(asg + [a]) == Chunks(asg) + {a.chunk}
    ensures GroupBy(asg + [a]) == WithChunk(GroupBy(asg), a)
  {
    assert (asg + [a])[..|asg|] == asg;
  }

  lemma AssignedPeers(cands: seq<Candidate>, peers: map<PeerId, PeerState>, budget: nat)
    ensures forall a | a in Assign(cands, peers, budget) :: a.peer in peers
  {
    AssignSound(cands, peers, budget);
    forall a | a in Assign(cands, peers, budget)
      ensures a.peer in peers
    {
      assert FromCandidate(peers, cands, a);
    }
  }

  lemma NothingRequested(t: State, now: real)
    ensures t.(inFlight := t.inFlight + Chunks([]), peers := Requested(t.peers, [], now)) == t
  {
    assert Requested(t.peers, [], now) == t.peers;
  }
}
