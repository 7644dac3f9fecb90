/** Concrete downloads: one host that has all of 32 chunks, one joiner, and what can happen to the
    first requests. */
module Scenario {
  import opened Bytes
  import opened Bitfield
  import opened Chunker
  import opened Peers
  import opened Strategy
  import opened Engine
  import opened Ownership
  import opened Runs
  import opened Sets
  import T = Tracker

  const CHUNKS: nat := 32

  lemma ReachableInv(s: State) returns (rejected: set<nat>)
    requires Reachable(s)
    ensures Inv(s, rejected)
  {
    var s0, events :| Initial(s0) && Legal(s0, events) && Run(s0, events) == s;
    InitialInv(s0);
    RunKeepsInv(s0, events, {});
    rejected := RejectedAlong(s0, events, {});
  }

  function Range(a: nat, b: nat): (r: set<nat>)
    ensures forall i: nat :: i in r <==> a <= i < b
    ensures a <= b ==> |r| == b - a
    decreases b
  {
    if a >= b then {} else Range(a, b - 1) + {b - 1}
  }

  // The first of a range moves out of it, to the end of the range before.
  lemma RangeStep(lo: nat, k: nat, hi: nat)
    requires lo <= k < hi
    ensures Range(lo, k) + {k} == Range(lo, k + 1) && Range(k, hi) - {k} == Range(k + 1, hi)
  {}

  lemma NoRange(a: nat)
    ensures Range(a, a) == {}
  {}

  function ListedEverywhere(host: PeerId): T.Avail {
    seq(CHUNKS, _ => {host})
  }

  // The host is the only peer, has everything and owes `owed`, all asked for at time 0.
  ghost predicate Scene(s: State, host: PeerId, have: set<nat>, inFlight: set<nat>, owed: set<nat>) {
    && s.peers.Keys == {host} && s.avail == ListedEverywhere(host)
    && s.have == have && s.inFlight == inFlight && s.urgent == {} && s.cursor == 0
    && s.peers[host].inFlight == (map i | i in owed :: 0.0)
    && s.peers[host].bits == Some(ALL_BITS)
  }

  const ALL_BITS: seq<byte> := [0xff, 0xff, 0xff, 0xff]

  lemma AllBitsSet(i: nat)
    requires i < CHUNKS
    ensures HasBit(ALL_BITS, i)
  {
    MaskCases(i);
  }

  function NothingYet(): State {
    State(map[], seq(CHUNKS, _ => {}), {}, {}, {}, 0)
  }

  lemma Connected(host: PeerId) returns (s: State)
    ensures Reachable(s) && Scene(s, host, Range(0, 0), {}, Range(0, 0))
  {
    var s0 := NothingYet();
    assert Initial(s0) && Legal(s0, []) && Run(s0, []) == s0;
    Reach(s0, Connect(host, Some(ALL_BITS)));
    s := ConnectOf(s0, host, Some(ALL_BITS));
    forall i: nat | i < CHUNKS
      ensures s.avail[i] == {host}
    {
      AllBitsSet(i);
    }
    assert s.avail == ListedEverywhere(host);
    NoRange(0);
    assert s.peers[host].inFlight == map[];
  }

  // ---------------------------------------------------------------- ticks

  // The chunks from lo on, in order.
  function From(host: PeerId, lo: nat): (cands: seq<Candidate>)
    requires lo <= CHUNKS
    ensures |cands| == CHUNKS - lo
  {
    seq(CHUNKS - lo, k requires 0 <= k => Candidate(lo + k, ScoreChunk(lo + k, 0, 1, {}), [host]))
  }

  lemma FromSorted(host: PeerId, lo: nat)
    requires lo <= CHUNKS
    ensures Sorted(From(host, lo)) && DistinctChunks(From(host, lo))
  {
    var cands := From(host, lo);
    forall a, b | 0 <= a < b < |cands|
      ensures cands[a].score <= cands[b].score && cands[a].index != cands[b].index
    {
      ScoresAscend(lo + a, lo + b);
    }
  }

  lemma ScoresAscend(i: nat, j: nat)
    requires i <= j
    ensures ScoreChunk(i, 0, 1, {}) <= ScoreChunk(j, 0, 1, {})
  {}

  lemma FromIsPriorityOrder(s: State, host: PeerId, lo: nat, owed: set<nat>)
    requires lo <= CHUNKS && Scene(s, host, Range(0, lo), {}, owed)
    ensures CandidatesOf(s, From(host, lo))
  {
    var cands := From(host, lo);
    FromSorted(host, lo);
    forall c | c in cands
      ensures Describes(c, s.cursor, s.avail, s.urgent)
    {
      var k :| 0 <= k < |cands| && cands[k] == c;
      assert Lists(c.holders, {host});
    }
    forall i: nat
      ensures Listed(cands, i) <==> Wanted(i, Missing(s), s.avail, s.inFlight)
    {
      if lo <= i < CHUNKS {
        assert cands[i - lo].index == i;
      }
    }
  }

  lemma {:induction false} AllToHost(cands: seq<Candidate>, peers: map<PeerId, PeerState>, host: PeerId, budget: nat)
    requires Available(peers, host) && forall c | c in cands :: c.holders == [host]
    ensures Assign(cands, peers, budget)
         == seq(Min(budget, |cands|), k requires 0 <= k < |cands| => Assignment(host, cands[k].index))
  {
    if cands != [] && budget > 0 {
      var tail := cands[1..];
      OnlyHost(peers, host);
      assert cands[0] in cands && cands[0].holders == [host];
      AllToHost(tail, peers, host, budget - 1);
      assert forall k | 0 <= k < |tail| :: tail[k] == cands[k + 1];
    }
  }

  lemma OnlyHost(peers: map<PeerId, PeerState>, host: PeerId)
    requires Available(peers, host)
    ensures Select(peers, [host]) == Some(host)
  {
    assert host in [host];
    SelectIsBest(peers, [host]);
  }

  lemma {:induction false} HostBatch(asg: seq<Assignment>, host: PeerId)
    requires forall a | a in asg :: a.peer == host
    ensures ToSet(Batch(asg, host)) == Chunks(asg)
  {
    forall i
      ensures i in Batch(asg, host) <==> i in Chunks(asg)
    {
      InBatch(asg, host, i);
      if i in Chunks(asg) {
        var a :| a in asg && a.chunk == i;
        assert a == Assignment(host, i);
      }
      if Assignment(host, i) in asg {
        assert Assignment(host, i).chunk in Chunks(asg);
      }
    }
  }

  lemma NoTimeouts(s: State, host: PeerId, have: set<nat>, inFlight: set<nat>, owed: set<nat>)
    requires Scene(s, host, have, inFlight, owed)
    ensures AfterTimeouts(s, 0.0) == s
  {
    var p := s.peers[host];
    assert Expired(p, REQUEST_TIMEOUT, 0.0) == {};
    assert Expire(p, REQUEST_TIMEOUT, 0.0) == p;
    assert ExpireAll(s.peers, 0.0) == s.peers && TimedOut(s.peers, 0.0) == {};
  }

  lemma SixteenAssigned(s: State, host: PeerId, lo: nat, owed: set<nat>)
    requires lo + 16 <= CHUNKS && Scene(s, host, Range(0, lo), {}, owed) && |owed| < 4
    ensures var asg := TickAssignments(s, 0.0, From(host, lo));
            && (forall a | a in asg :: a.peer == host) && Chunks(asg) == Range(lo, lo + 16)
  {
    NoTimeouts(s, host, Range(0, lo), {}, owed);
    assert s.peers[host].inFlight.Keys == owed;
    assert |s.peers[host].inFlight| == |s.peers[host].inFlight.Keys|;
    var asg := Assign(From(host, lo), s.peers, 16);
    assert asg == TickAssignments(s, 0.0, From(host, lo));
    FirstSixteen(s.peers, host, lo);
  }

  lemma FirstSixteen(peers: map<PeerId, PeerState>, host: PeerId, lo: nat)
    requires lo + 16 <= CHUNKS && Available(peers, host)
    ensures var asg := Assign(From(host, lo), peers, 16);
            (forall a | a in asg :: a.peer == host) && Chunks(asg) == Range(lo, lo + 16)
  {
    var asg := Assign(From(host, lo), peers, 16);
    AllToHost(From(host, lo), peers, host, 16);
    assert |asg| == 16 && forall k | 0 <= k < 16 :: asg[k] == Assignment(host, lo + k);
    forall i: nat
      ensures i in Chunks(asg) <==> i in Range(lo, lo + 16)
    {
      if lo <= i < lo + 16 {
        assert asg[i - lo].chunk == i && asg[i - lo] in asg;
      }
    }
  }

  // A tick asks the host for sixteen more chunks, if it owes fewer than four.
  lemma TickScene(s: State, host: PeerId, lo: nat, owed: set<nat>) returns (t: State)
    requires Reachable(s) && lo + 16 <= CHUNKS && Scene(s, host, Range(0, lo), {}, owed) && |owed| < 4
    ensures Reachable(t) && Scene(t, host, Range(0, lo), Range(lo, lo + 16), owed + Range(lo, lo + 16))
  {
    var cands := From(host, lo);
    FromIsPriorityOrder(s, host, lo, owed);
    NoTimeouts(s, host, Range(0, lo), {}, owed);
    SixteenAssigned(s, host, lo, owed);
    Reach(s, Tick(0.0, cands));
    t := TickOf(s, 0.0, cands);
    HostBatch(TickAssignments(s, 0.0, cands), host);
    TickedHost(s.peers[host], owed, Batch(TickAssignments(s, 0.0, cands), host), Range(lo, lo + 16));
  }

  lemma TickedHost(p: PeerState, owed: set<nat>, batch: seq<nat>, chunks: set<nat>)
    requires p.inFlight == (map i | i in owed :: 0.0) && ToSet(batch) == chunks
    ensures var q := Request(p, batch, 0.0);
            q.inFlight == (map i | i in owed + chunks :: 0.0) && q.bits == p.bits
  {
    assert forall i :: i in batch <==> i in ToSet(batch);
  }

  // ---------------------------------------------------------------- pieces

  // The host answers, with the chunk or with something else; or another peer delivers the chunk
  // unasked.
  lemma PieceScene(s: State, host: PeerId, have: set<nat>, inFlight: set<nat>, owed: set<nat>,
                   from: PeerId, i: nat, good: bool) returns (t: State)
    requires Reachable(s) && Scene(s, host, have, inFlight, owed) && i < CHUNKS && i !in have
    ensures Reachable(t)
    ensures Scene(t, host, if good then have + {i} else have, if good then inFlight - {i} else inFlight,
                  if from == host then owed - {i} else owed)
  {
    Reach(s, Piece(from, i, 0, good, 0.0));
    t := PieceOf(s, from, i, 0, good, 0.0);
    if from == host {
      AnsweredHost(s.peers[host], owed, i);
    }
  }

  lemma AnsweredHost(p: PeerState, owed: set<nat>, i: nat)
    requires p.inFlight == map i | i in owed :: 0.0
    ensures var q := Clear(p, i, 0, 0.0); q.inFlight == (map j | j in owed - {i} :: 0.0) && q.bits == p.bits
  {}

  // The host has been asked for the first sixteen chunks.
  lemma FirstAsked(host: PeerId) returns (s: State)
    ensures Reachable(s) && Scene(s, host, {}, Range(0, 16), Range(0, 16))
  {
    var before := Connected(host);
    s := TickScene(before, host, 0, Range(0, 0));
    NothingAdded(Range(0, 16));
    NoRange(0);
  }

  lemma NothingAdded(s: set<nat>)
    ensures Range(0, 0) + s == s
  {
    NoRange(0);
  }

  // It has answered the first k of them, all badly.
  lemma {:induction false} BadlyAnswered(host: PeerId, k: nat) returns (s: State)
    requires k <= 16
    ensures Reachable(s) && Scene(s, host, {}, Range(0, 16), Range(k, 16))
  {
    if k == 0 {
      s := FirstAsked(host);
    } else {
      var before := BadlyAnswered(host, k - 1);
      s := PieceScene(before, host, {}, Range(0, 16), Range(k - 1, 16), host, k - 1, false);
      RangeStep(0, k - 1, 16);
    }
  }

  // It has answered the first k of them well.
  lemma {:induction false} WellAnswered(host: PeerId, k: nat) returns (s: State)
    requires k <= 16
    ensures Reachable(s) && Scene(s, host, Range(0, k), Range(k, 16), Range(k, 16))
  {
    if k == 0 {
      s := FirstAsked(host);
      NoRange(0);
    } else {
      var before := WellAnswered(host, k - 1);
      s := PieceScene(before, host, Range(0, k - 1), Range(k - 1, 16), Range(k - 1, 16), host, k - 1, true);
      RangeStep(0, k - 1, 16);
    }
  }

  // It still owes the last three, but another peer has delivered the first k of those.
  lemma {:induction false} Overtaken(host: PeerId, other: PeerId, k: nat) returns (s: State)
    requires other != host && k <= 3
    ensures Reachable(s) && Scene(s, host, Range(0, 13 + k), Range(13 + k, 16), Range(13, 16))
  {
    if k == 0 {
      s := WellAnswered(host, 13);
    } else {
      var before := Overtaken(host, other, k - 1);
      s := PieceScene(before, host, Range(0, 12 + k), Range(12 + k, 16), Range(13, 16), other, 12 + k, true);
      RangeStep(0, 12 + k, 16);
    }
  }
}
