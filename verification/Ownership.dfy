/** Who is responsible for each chunk in flight, over every run of the engine. */
module Ownership {
  import opened Bytes
  import opened Peers
  import opened Strategy
  import opened Engine
  import opened Sets

  predicate OwnedBy(s: State, id: PeerId, i: nat) {
    id in s.peers && i in s.peers[id].inFlight
  }

  ghost predicate Owned(s: State, i: nat) {
    exists id :: OwnedBy(s, id, i)
  }

  // History: the chunks whose outstanding piece was rejected and that no accepted piece has
  // followed.
  function Rejected(s: State, e: Event, before: set<nat>): set<nat> {
    match e
    case Piece(from, index, _, good, _) =>
      if Accepted(s, index, good) then before - {index}
      else if OwnedBy(s, from, index) then before + {index}
      else before
    case _ => before
  }

  function RejectedAlong(s: State, events: seq<Event>, before: set<nat>): set<nat>
    decreases |events|
  {
    if events == [] then before
    else RejectedAlong(Next(s, events[0]), events[1..], Rejected(s, events[0], before))
  }

  ghost predicate SingleOwner(s: State) {
    forall i, p, q | OwnedBy(s, p, i) && OwnedBy(s, q, i) :: p == q
  }

  ghost predicate NothingStoredInFlight(s: State) {
    forall i | i in s.inFlight :: i !in s.have && i < |s.avail|
  }

  ghost predicate OwnedIsInFlight(s: State) {
    forall i, p | OwnedBy(s, p, i) && i !in s.have :: i in s.inFlight
  }

  ghost predicate OwnedExists(s: State) {
    forall i: nat, p | OwnedBy(s, p, i) :: i < |s.avail|
  }

  // The scheduler's entries without an owner are the rejected ones.
  ghost predicate OrphansAre(s: State, rejected: set<nat>) {
    forall i: nat :: i in s.inFlight && !Owned(s, i) <==> i in rejected
  }

  ghost predicate Inv(s: State, rejected: set<nat>) {
    && SingleOwner(s) && NothingStoredInFlight(s) && OwnedIsInFlight(s) && OwnedExists(s)
    && OrphansAre(s, rejected)
    && (forall i | i in s.have :: i < |s.avail|) && s.urgent <= Missing(s)
    && |s.inFlight| <= MAX_TOTAL_IN_FLIGHT
  }

  lemma InitialInv(s: State)
    requires Initial(s)
    ensures Inv(s, {})
  {}

  // ---------------------------------------------------------------- timeouts

  lemma ExpiredGone(s: State, now: real, id: PeerId, i: nat)
    ensures OwnedBy(AfterTimeouts(s, now), id, i) <==>
      OwnedBy(s, id, i) && i !in Expired(s.peers[id], REQUEST_TIMEOUT, now)
  {}

  lemma TimeoutsKeepInv(s: State, now: real, rejected: set<nat>)
    requires Inv(s, rejected)
    ensures Inv(AfterTimeouts(s, now), rejected)
  {
    var t := AfterTimeouts(s, now);
    SubsetSize(t.inFlight, s.inFlight);
    forall id, i
      ensures OwnedBy(t, id, i) <==> OwnedBy(s, id, i) && i !in TimedOut(s.peers, now)
    {
      ExpiredGone(s, now, id, i);
      if OwnedBy(s, id, i) && i in TimedOut(s.peers, now) {
        var q :| q in s.peers && i in Expired(s.peers[q], REQUEST_TIMEOUT, now);
        assert OwnedBy(s, q, i);
      }
    }
    forall i: nat
      ensures i in t.inFlight && !Owned(t, i) <==> i in rejected
    {
      if Owned(s, i) {
        var id :| OwnedBy(s, id, i);
        assert i !in TimedOut(s.peers, now) ==> OwnedBy(t, id, i);
      } else if i in TimedOut(s.peers, now) {
        var q :| q in s.peers && i in Expired(s.peers[q], REQUEST_TIMEOUT, now);
        assert OwnedBy(s, q, i);
      }
    }
  }

  // ---------------------------------------------------------------- assignments

  lemma {:induction false} InBatch(asg: seq<Assignment>, id: PeerId, i: nat)
    ensures i in Batch(asg, id) <==> Assignment(id, i) in asg
  {
    if asg != [] {
      InBatch(asg[1..], id, i);
    }
  }

  // What the assignment loop guarantees about its assignments.
  ghost predicate FreshAssignments(t: State, asg: seq<Assignment>) {
    && (forall a | a in asg ::
          a.peer in t.peers && a.chunk < |t.avail| && a.chunk !in t.have && a.chunk !in t.inFlight)
    && (forall x, y | 0 <= x < y < |asg| :: asg[x].chunk != asg[y].chunk)
    && |asg| <= Budget(t)
  }

  lemma AssignmentsFresh(t: State, cands: seq<Candidate>)
    requires Budget(t) > 0 ==> CandidatesOf(t, cands)
    ensures FreshAssignments(t, Assign(cands, t.peers, Budget(t)))
  {
    if Budget(t) == 0 {
      return;
    }
    AssignSound(cands, t.peers, Budget(t));
    AssignDistinct(cands, t.peers, Budget(t));
    forall a | a in Assign(cands, t.peers, Budget(t))
      ensures a.peer in t.peers && a.chunk < |t.avail| && a.chunk !in t.have && a.chunk !in t.inFlight
    {
      var c :| c in cands && c.index == a.chunk && Best(t.peers, c.holders, a.peer);
      var k :| 0 <= k < |cands| && cands[k] == c;
      assert Listed(cands, a.chunk);
    }
  }

  lemma {:induction false} ChunksSize(asg: seq<Assignment>)
    ensures |Chunks(asg)| <= |asg|
    ensures (forall x, y | 0 <= x < y < |asg| :: asg[x].chunk != asg[y].chunk) ==> |Chunks(asg)| == |asg|
  {
    if asg != [] {
      var init, last := asg[..|asg| - 1], asg[|asg| - 1];
      assert asg == init + [last];
      ChunksSize(init);
      assert Chunks(asg) == Chunks(init) + {last.chunk};
    }
  }

  // u is t after the requests: each chunk assigned has its peer as an additional owner.
  ghost predicate OwnersAdded(t: State, u: State, asg: seq<Assignment>) {
    forall id, i :: OwnedBy(u, id, i) <==> OwnedBy(t, id, i) || (id in t.peers && Assignment(id, i) in asg)
  }

  lemma OneAssignmentPerChunk(asg: seq<Assignment>, p: PeerId, q: PeerId, i: nat)
    requires forall x, y | 0 <= x < y < |asg| :: asg[x].chunk != asg[y].chunk
    requires Assignment(p, i) in asg && Assignment(q, i) in asg
    ensures p == q
  {
    var x :| 0 <= x < |asg| && asg[x] == Assignment(p, i);
    var y :| 0 <= y < |asg| && asg[y] == Assignment(q, i);
    assert x == y;
  }

  lemma AddedSingleOwner(t: State, u: State, asg: seq<Assignment>, rejected: set<nat>, i: nat, p: PeerId, q: PeerId)
    requires Inv(t, rejected) && FreshAssignments(t, asg) && OwnersAdded(t, u, asg)
    requires OwnedBy(u, p, i) && OwnedBy(u, q, i)
    ensures p == q
  {
    if Assignment(p, i) in asg && Assignment(q, i) in asg {
      OneAssignmentPerChunk(asg, p, q, i);
    }
  }

  lemma AddedOwned(t: State, u: State, asg: seq<Assignment>, i: nat)
    requires FreshAssignments(t, asg) && OwnersAdded(t, u, asg)
    ensures Owned(u, i) <==> Owned(t, i) || i in Chunks(asg)
  {
    if i in Chunks(asg) {
      var a :| a in asg && a.chunk == i;
      assert a == Assignment(a.peer, i);
      assert OwnedBy(u, a.peer, i);
    }
    if Owned(t, i) {
      var id :| OwnedBy(t, id, i);
      assert OwnedBy(u, id, i);
    }
  }

  lemma AssignmentsKeepInv(t: State, u: State, asg: seq<Assignment>, rejected: set<nat>)
    requires Inv(t, rejected) && FreshAssignments(t, asg) && OwnersAdded(t, u, asg)
    requires u.inFlight == t.inFlight + Chunks(asg) && u.have == t.have && u.avail == t.avail && u.urgent == t.urgent
    ensures Inv(u, rejected)
  {
    ChunksSize(asg);
    forall i: nat, p, q | OwnedBy(u, p, i) && OwnedBy(u, q, i)
      ensures p == q
    {
      AddedSingleOwner(t, u, asg, rejected, i, p, q);
    }
    forall i: nat
      ensures Owned(u, i) <==> Owned(t, i) || i in Chunks(asg)
    {
      AddedOwned(t, u, asg, i);
    }
    forall i: nat | i in Chunks(asg)
      ensures i < |t.avail| && i !in t.have && i !in t.inFlight
    {
      var a :| a in asg && a.chunk == i;
    }
    forall i: nat, p | OwnedBy(u, p, i) && !OwnedBy(t, p, i)
      ensures i in Chunks(asg)
    {
      assert Assignment(p, i) in asg && Assignment(p, i).chunk == i;
    }
  }

  // ---------------------------------------------------------------- one step

  lemma TickKeepsInv(s: State, now: real, cands: seq<Candidate>, rejected: set<nat>)
    requires Inv(s, rejected) && Enabled(s, Tick(now, cands))
    ensures Inv(TickOf(s, now, cands), rejected)
    ensures FreshAssignments(AfterTimeouts(s, now), TickAssignments(s, now, cands))
  {
    TimeoutsKeepInv(s, now, rejected);
    var t := AfterTimeouts(s, now);
    var asg := TickAssignments(s, now, cands);
    AssignmentsFresh(t, cands);
    var u := TickOf(s, now, cands);
    forall id, i
      ensures OwnedBy(u, id, i) <==> OwnedBy(t, id, i) || (id in t.peers && Assignment(id, i) in asg)
    {
      InBatch(asg, id, i);
    }
    AssignmentsKeepInv(t, u, asg, rejected);
  }

  lemma ClearedOwner(s: State, e: Event, id: PeerId, i: nat)
    requires e.Piece?
    ensures OwnedBy(Next(s, e), id, i) <==> OwnedBy(s, id, i) && !(id == e.from && i == e.index)
  {}

  lemma PieceKeepsInv(s: State, e: Event, rejected: set<nat>)
    requires Inv(s, rejected) && e.Piece?
    ensures Inv(Next(s, e), Rejected(s, e, rejected))
  {
    var t := Next(s, e);
    SubsetSize(t.inFlight, s.inFlight);
    forall id, i
      ensures OwnedBy(t, id, i) <==> OwnedBy(s, id, i) && !(id == e.from && i == e.index)
    {
      ClearedOwner(s, e, id, i);
    }
    forall i: nat | i != e.index
      ensures Owned(t, i) <==> Owned(s, i)
    {
      if Owned(s, i) {
        var id :| OwnedBy(s, id, i);
        assert OwnedBy(t, id, i);
      }
    }
    if OwnedBy(s, e.from, e.index) {
      assert !Owned(t, e.index);
    } else if Owned(s, e.index) {
      var id :| OwnedBy(s, id, e.index);
      assert OwnedBy(t, id, e.index);
    }
  }

  lemma DisconnectKeepsInv(s: State, id: PeerId, rejected: set<nat>)
    requires Inv(s, rejected) && id in s.peers
    ensures Inv(Next(s, Disconnect(id)), rejected)
  {
    var t := Next(s, Disconnect(id));
    SubsetSize(t.inFlight, s.inFlight);
    forall q, i: nat
      ensures OwnedBy(t, q, i) <==> OwnedBy(s, q, i) && q != id
      ensures OwnedBy(t, q, i) ==> i !in s.peers[id].inFlight
    {
      assert i in s.peers[id].inFlight ==> OwnedBy(s, id, i);
    }
    forall i: nat
      ensures i in t.inFlight && !Owned(t, i) <==> i in rejected
    {
      if i in s.peers[id].inFlight {
        assert OwnedBy(s, id, i);
      } else if Owned(s, i) {
        var q :| OwnedBy(s, q, i);
        assert OwnedBy(t, q, i);
      }
    }
  }

  // The remaining events leave all in-flight maps and sets alone.
  lemma OtherKeepsInv(s: State, e: Event, rejected: set<nat>)
    requires Inv(s, rejected) && Enabled(s, e)
    requires e.BitfieldMsg? || e.HaveMsg? || e.Connect? || e.Demand? || e.SetCursor?
    ensures Inv(Next(s, e), rejected)
  {
    var t := Next(s, e);
    forall id, i
      ensures OwnedBy(t, id, i) <==> OwnedBy(s, id, i)
    {}
    forall i: nat
      ensures Owned(t, i) <==> Owned(s, i)
    {
      if Owned(s, i) {
        var id :| OwnedBy(s, id, i);
        assert OwnedBy(t, id, i);
      }
    }
  }

  lemma StepKeepsInv(s: State, e: Event, rejected: set<nat>)
    requires Inv(s, rejected) && Enabled(s, e)
    ensures Inv(Next(s, e), Rejected(s, e, rejected))
  {
    match e {
      case Tick(now, cands) => TickKeepsInv(s, now, cands, rejected);
      case Piece(_, _, _, _, _) => PieceKeepsInv(s, e, rejected);
      case Disconnect(id) => if id in s.peers { DisconnectKeepsInv(s, id, rejected); }
      case _ => OtherKeepsInv(s, e, rejected);
    }
  }

  // ---------------------------------------------------------------- every run

  lemma {:induction false} RunKeepsInv(s: State, events: seq<Event>, rejected: set<nat>)
    requires Inv(s, rejected) && Legal(s, events)
    ensures Inv(Run(s, events), RejectedAlong(s, events, rejected))
    decreases |events|
  {
    if events != [] {
      StepKeepsInv(s, events[0], rejected);
      RunKeepsInv(Next(s, events[0]), events[1..], Rejected(s, events[0], rejected));
    }
  }

  // In-flight ownership, with late, duplicate, unsolicited and rejected pieces, timeouts and
  // disconnects in any order: no chunk is in flight at two connected peers; the scheduler's set
  // never meets the stored chunks and never exceeds its cap; every missing chunk some peer owes
  // is in the scheduler's set; and the scheduler's entries that no peer owes are exactly the
  // chunks whose outstanding piece was rejected and that no accepted piece has followed.
  lemma OwnershipOverRuns(s0: State, events: seq<Event>)
    requires Initial(s0) && Legal(s0, events)
    ensures var s := Run(s0, events);
            && (forall i, p, q | OwnedBy(s, p, i) && OwnedBy(s, q, i) :: p == q)
            && s.inFlight !! s.have && |s.inFlight| <= MAX_TOTAL_IN_FLIGHT
            && (forall i, p | OwnedBy(s, p, i) && i !in s.have :: i in s.inFlight)
            && (forall i: nat :: i in s.inFlight && !Owned(s, i) <==> i in RejectedAlong(s0, events, {}))
  {
    InitialInv(s0);
    RunKeepsInv(s0, events, {});
  }

  // No piece that answers a request is rejected.
  predicate AllAnswersGood(s: State, events: seq<Event>)
    decreases |events|
  {
    events == [] ||
    ((events[0].Piece? && OwnedBy(s, events[0].from, events[0].index) ==> Accepted(s, events[0].index, events[0].good))
     && AllAnswersGood(Next(s, events[0]), events[1..]))
  }

  lemma GoodAnswerRejectsNothing(s: State, e: Event)
    requires e.Piece? && OwnedBy(s, e.from, e.index) ==> Accepted(s, e.index, e.good)
    ensures Rejected(s, e, {}) == {}
  {}

  lemma {:induction false} GoodAnswersRejectNothing(s: State, events: seq<Event>)
    requires AllAnswersGood(s, events)
    ensures RejectedAlong(s, events, {}) == {}
    decreases |events|
  {
    if events != [] {
      GoodAnswerRejectsNothing(s, events[0]);
      GoodAnswersRejectNothing(Next(s, events[0]), events[1..]);
    }
  }

  // If every answer verifies, every scheduler entry has an owner.
  lemma NoOrphansIfAllVerify(s0: State, events: seq<Event>)
    requires Initial(s0) && Legal(s0, events) && AllAnswersGood(s0, events)
    ensures forall i | i in Run(s0, events).inFlight :: Owned(Run(s0, events), i)
  {
    OwnershipOverRuns(s0, events);
    GoodAnswersRejectNothing(s0, events);
  }
}
