/** What the engine's bookkeeping costs: a rejected chunk is never asked for again, and sixteen of
    them end the download. */
module Stalls {
  import opened Bytes
  import opened Bitfield
  import opened Peers
  import opened Strategy
  import opened Engine
  import opened Ownership
  import opened Completion
  import opened Runs
  import opened Scenario
  import opened Sets
  import T = Tracker

  // The event is a piece of chunk i that the store accepts.
  predicate Delivers(s: State, e: Event, i: nat) {
    e.Piece? && e.index == i && Accepted(s, i, e.good)
  }

  predicate NeverDelivered(s: State, events: seq<Event>, i: nat)
    decreases |events|
  {
    events == [] || (!Delivers(s, events[0], i) && NeverDelivered(Next(s, events[0]), events[1..], i))
  }

  // The event is a tick that requests chunk i.
  predicate Requests(s: State, e: Event, i: nat) {
    e.Tick? && Assigned(TickAssignments(s, e.now, e.cands), i)
  }

  predicate NeverRequested(s: State, events: seq<Event>, i: nat)
    decreases |events|
  {
    events == [] || (!Requests(s, events[0], i) && NeverRequested(Next(s, events[0]), events[1..], i))
  }

  // A rejected chunk is never asked for again, whatever happens: while nobody delivers it, it stays
  // in the scheduler's set, and once somebody does, it is stored.
  lemma {:induction false} RejectedNeverRequested(s: State, events: seq<Event>, rejected: set<nat>, i: nat)
    requires Inv(s, rejected) && Legal(s, events) && (i in rejected || i in s.have)
    ensures NeverRequested(s, events, i)
    decreases |events|
  {
    if events != [] {
      var e := events[0];
      StepKeepsInv(s, e, rejected);
      StaysOut(s, e, rejected, i);
      RejectedNeverRequested(Next(s, e), events[1..], Rejected(s, e, rejected), i);
    }
  }

  lemma TickSkips(s: State, now: real, cands: seq<Candidate>, rejected: set<nat>, i: nat)
    requires Inv(s, rejected) && Enabled(s, Tick(now, cands)) && (i in rejected || i in s.have)
    ensures !Assigned(TickAssignments(s, now, cands), i)
  {
    TickKeepsInv(s, now, cands, rejected);
    TimeoutsKeepInv(s, now, rejected);
  }

  lemma StaysOut(s: State, e: Event, rejected: set<nat>, i: nat)
    requires Inv(s, rejected) && Enabled(s, e) && (i in rejected || i in s.have)
    ensures (i in Rejected(s, e, rejected) || i in Next(s, e).have) && !Requests(s, e, i)
  {
    if e.Tick? {
      TickSkips(s, e.now, e.cands, rejected, i);
    }
  }

  // Nothing but an accepted piece makes a rejected chunk schedulable: not a timeout, not a
  // disconnect, not a demand.
  lemma {:induction false} StuckUntilDelivered(s: State, events: seq<Event>, rejected: set<nat>, i: nat)
    requires Inv(s, rejected) && Legal(s, events) && i in rejected && NeverDelivered(s, events, i)
    ensures i in RejectedAlong(s, events, rejected) && i in Run(s, events).inFlight && i !in Run(s, events).have
    decreases |events|
  {
    if events != [] {
      var e := events[0];
      StepKeepsInv(s, e, rejected);
      assert i in Rejected(s, e, rejected);
      StuckUntilDelivered(Next(s, e), events[1..], Rejected(s, e, rejected), i);
    }
  }

  // The download as a whole stops once sixteen chunks have been rejected: from then on no tick
  // requests anything, until one of those chunks is delivered unasked.
  predicate NothingRequested(s: State, events: seq<Event>)
    decreases |events|
  {
    events == [] ||
    ((events[0].Tick? ==> TickAssignments(s, events[0].now, events[0].cands) == [])
     && NothingRequested(Next(s, events[0]), events[1..]))
  }

  lemma {:induction false} SixteenRejectionsStopEverything(s: State, events: seq<Event>, rejected: set<nat>)
    requires Inv(s, rejected) && Legal(s, events) && |rejected| >= MAX_TOTAL_IN_FLIGHT
    requires forall i | i in rejected :: NeverDelivered(s, events, i)
    ensures NothingRequested(s, events)
    decreases |events|
  {
    if events != [] {
      var e := events[0];
      StepKeepsInv(s, e, rejected);
      if e.Tick? {
        TimeoutsKeepInv(s, e.now, rejected);
        Sets.SubsetSize(rejected, AfterTimeouts(s, e.now).inFlight);
      }
      var rejected' := Rejected(s, e, rejected);
      assert rejected <= rejected' by {
        forall i | i in rejected
          ensures i in rejected'
        {
          assert NeverDelivered(s, events, i);
        }
      }
      AtMostSixteen(Next(s, e), rejected');
      Sets.SubsetSize(rejected, rejected');
      SixteenRejectionsStopEverything(Next(s, e), events[1..], rejected');
    }
  }

  lemma AtMostSixteen(s: State, rejected: set<nat>)
    requires Inv(s, rejected)
    ensures |rejected| <= MAX_TOTAL_IN_FLIGHT
  {
    Sets.SubsetSize(rejected, s.inFlight);
  }

  // ---------------------------------------------------------------- a stalled download

  // The only candidate there is.
  lemma OnlyCandidate(s: State, host: PeerId)
    requires s.avail == [{host}] && s.have == {} && s.inFlight == {} && s.urgent == {} && s.cursor == 0
    ensures CandidatesOf(s, [Candidate(0, 100.0, [host])])
  {
    var cands := [Candidate(0, 100.0, [host])];
    assert cands[0].index == 0;
    forall i: nat
      ensures Listed(cands, i) <==> Wanted(i, Missing(s), s.avail, s.inFlight)
    {}
  }

  // The state after the host has connected and announced the only chunk, the chunk was
  // requested, and the answer did not verify.
  function Stalled(host: PeerId): State {
    State(map[host := PeerState(map[], 0.0, Some([0x80]), [[0]])], [{host}], {}, {0}, {}, 0)
  }

  function Announced(host: PeerId): State {
    State(map[host := NEW_PEER.(bits := Some([0x80]))], [{host}], {}, {}, {}, 0)
  }

  function Asked(host: PeerId): State {
    State(map[host := PeerState(map[0 := 0.0], 0.0, Some([0x80]), [[0]])], [{host}], {}, {0}, {}, 0)
  }

  function Fresh(): State {
    State(map[], [{}], {}, {}, {}, 0)
  }

  lemma FirstBit()
    ensures HasBit([0x80], 0)
  {
    MaskCases(0);
  }

  lemma AnnouncedIsNext(host: PeerId)
    ensures Next(Fresh(), Connect(host, Some([0x80]))) == Announced(host)
  {
    FirstBit();
    var avail := T.Updated([{}], host, [0x80]);
    assert avail[0] == {host};
    assert avail == [{host}];
  }

  lemma NoTimeoutYet(host: PeerId)
    ensures AfterTimeouts(Announced(host), 0.0) == Announced(host)
  {
    var s := Announced(host);
    assert Expired(s.peers[host], REQUEST_TIMEOUT, 0.0) == {};
    assert Expire(s.peers[host], REQUEST_TIMEOUT, 0.0) == s.peers[host];
    assert ExpireAll(s.peers, 0.0) == s.peers;
  }

  lemma HostIsChosen(host: PeerId, peers: map<PeerId, PeerState>, budget: nat)
    requires Available(peers, host) && budget > 0
    ensures Assign([Candidate(0, 100.0, [host])], peers, budget) == [Assignment(host, 0)]
  {
    var cands := [Candidate(0, 100.0, [host])];
    assert host in cands[0].holders;
    SelectIsBest(peers, cands[0].holders);
    assert Select(peers, cands[0].holders) == Some(host);
    assert Assign(cands[1..], peers, budget - 1) == [];
  }

  lemma HostIsAsked(host: PeerId)
    ensures Requested(Announced(host).peers, [Assignment(host, 0)], 0.0) == Asked(host).peers
    ensures Chunks([Assignment(host, 0)]) == {0}
  {
    var asg := [Assignment(host, 0)];
    var p := Announced(host).peers[host];
    assert asg[1..] == [] && Batch(asg, host) == [0];
    assert Mark(p, [0], 0.0).inFlight == map[0 := 0.0];
    assert Request(p, [0], 0.0) == Asked(host).peers[host];
  }

  lemma AskedIsNext(host: PeerId)
    ensures TickOf(Announced(host), 0.0, [Candidate(0, 100.0, [host])]) == Asked(host)
  {
    NoTimeoutYet(host);
    HostIsChosen(host, Announced(host).peers, 16);
    HostIsAsked(host);
  }

  lemma StalledIsNext(host: PeerId)
    ensures PieceOf(Asked(host), host, 0, 0, false, 0.0) == Stalled(host)
  {
    assert map[0 := 0.0] - {0} == map[];
  }

  lemma StalledIsReachable(host: PeerId)
    ensures Reachable(Stalled(host))
  {
    var s0 := Fresh();
    assert Legal(s0, []) && Run(s0, []) == s0;
    Reach(s0, Connect(host, Some([0x80])));
    AnnouncedIsNext(host);
    NoTimeoutYet(host);
    OnlyCandidate(Announced(host), host);
    Reach(Announced(host), Tick(0.0, [Candidate(0, 100.0, [host])]));
    AskedIsNext(host);
    Reach(Asked(host), Piece(host, 0, 0, false, 0.0));
    StalledIsNext(host);
  }

  // One bad piece is enough: the host is connected, idle and has the chunk, the chunk is
  // missing, and it is never requested again until someone delivers it unasked.
  lemma OneBadPieceStalls(host: PeerId, events: seq<Event>)
    requires Legal(Stalled(host), events) && NeverDelivered(Stalled(host), events, 0)
    ensures NeverRequested(Stalled(host), events, 0) && 0 !in Run(Stalled(host), events).have
  {
    var s := Stalled(host);
    assert Inv(s, {0});
    RejectedNeverRequested(s, events, {0}, 0);
    StuckUntilDelivered(s, events, {0}, 0);
  }

  // ---------------------------------------------------------------- a stopped download

  // A host that answers its first sixteen requests badly ends the download: sixteen of the 32
  // chunks are rejected, the host is connected, idle and has everything, and no tick asks for
  // anything until one of the sixteen is delivered unasked.
  lemma SixteenRejectionsAreReached(host: PeerId) returns (s: State)
    ensures Reachable(s) && Inv(s, Range(0, 16)) && |Range(0, 16)| == 16
    ensures HostListed(s, host) && s.peers[host].inFlight == map[] && |Missing(s)| == CHUNKS
    ensures forall events | Legal(s, events) && (forall i | i in Range(0, 16) :: NeverDelivered(s, events, i)) ::
              NothingRequested(s, events)
  {
    s := BadlyAnswered(host, 16);
    NoRange(16);
    RejectedScene(s, host, Range(0, 16));
    var rejected := ReachableInv(s);
    IdleHost(s, host);
    AllRejected(s, rejected);
    forall events | Legal(s, events) && (forall i | i in Range(0, 16) :: NeverDelivered(s, events, i))
      ensures NothingRequested(s, events)
    {
      SixteenRejectionsStopEverything(s, events, Range(0, 16));
    }
  }

  lemma RejectedScene(s: State, host: PeerId, rejected: set<nat>)
    requires Scene(s, host, {}, rejected, {})
    ensures HostListed(s, host) && s.peers.Keys == {host} && s.peers[host].inFlight == map[]
    ensures s.inFlight == rejected && |Missing(s)| == CHUNKS
  {
    assert s.peers[host].inFlight == map[];
    NothingStored(s);
    FullBitfieldHasAll();
  }

  lemma NothingStored(s: State)
    requires s.have == {} && |s.avail| == CHUNKS
    ensures |Missing(s)| == CHUNKS
  {
    assert Missing(s) == Range(0, CHUNKS);
  }

  lemma FullBitfieldHasAll()
    ensures NoneClear(ALL_BITS, CHUNKS)
  {
    forall i: nat | i < CHUNKS
      ensures HasBit(ALL_BITS, i)
    {
      AllBitsSet(i);
    }
  }

  lemma IdleHost(s: State, host: PeerId)
    requires s.peers.Keys == {host} && s.peers[host].inFlight == map[]
    ensures forall id, i :: !OwnedBy(s, id, i)
  {
    forall id, i
      ensures !OwnedBy(s, id, i)
    {
      assert id in s.peers ==> id == host;
    }
  }
}
