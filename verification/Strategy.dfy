/** Which chunks to ask for and whom to ask (internal/scheduler/strategy.go, and the assignment
    loop of internal/scheduler/scheduler.go:193-214). */
module Strategy {
  import opened Bytes
  import opened Peers
  import opened Sets
  import T = Tracker

  const MAX_TOTAL_IN_FLIGHT: nat := 16
  const MAX_IN_FLIGHT_PER_PEER: nat := 4
  const PLAYBACK_WINDOW: nat := 30

  // Lower is more pressing.
  function ScoreChunk(index: nat, cursor: int, rarity: nat, urgent: set<nat>): real {
    if index in urgent then 0.0
    else if cursor <= index < cursor + PLAYBACK_WINDOW then 100.0 + (index - cursor) as real
    else 1000.0 + rarity as real
  }

  datatype Candidate = Candidate(index: nat, score: real, holders: seq<PeerId>)

  predicate Sorted(cands: seq<Candidate>) {
    forall a, b | 0 <= a < b < |cands| :: cands[a].score <= cands[b].score
  }

  predicate DistinctChunks(cands: seq<Candidate>) {
    forall a, b | 0 <= a < b < |cands| :: cands[a].index != cands[b].index
  }

  // The candidate is what the tracker says about its chunk.
  ghost predicate Describes(c: Candidate, cursor: int, avail: T.Avail, urgent: set<nat>) {
    && c.index < |avail| && avail[c.index] != {}
    && Lists(c.holders, avail[c.index])
    && c.score == ScoreChunk(c.index, cursor, |avail[c.index]|, urgent)
  }

  predicate Wanted(i: nat, missing: set<nat>, avail: T.Avail, inFlight: set<nat>) {
    i in missing && i !in inFlight && i < |avail| && avail[i] != {}
  }

  predicate Listed(cands: seq<Candidate>, i: nat) {
    exists k :: 0 <= k < |cands| && cands[k].index == i
  }

  // Every missing chunk that is not in flight and has a holder, exactly once, in score order.
  ghost predicate Prioritized(cands: seq<Candidate>, missing: set<nat>, cursor: int, avail: T.Avail,
                              inFlight: set<nat>, urgent: set<nat>) {
    && Sorted(cands) && DistinctChunks(cands)
    && (forall c | c in cands :: Describes(c, cursor, avail, urgent))
    && (forall i: nat :: Listed(cands, i) <==> Wanted(i, missing, avail, inFlight))
  }

  predicate InWindow(i: nat, cursor: int) {
    cursor <= i < cursor + 30
  }

  // What score order means: urgent chunks before all others, then the playback window by
  // ascending index, then the rest with fewer holders first.
  lemma TierOrder(cands: seq<Candidate>, missing: set<nat>, cursor: int, avail: T.Avail,
                  inFlight: set<nat>, urgent: set<nat>, a: nat, b: nat)
    requires Prioritized(cands, missing, cursor, avail, inFlight, urgent) && a < b < |cands|
    ensures var i, j := cands[a].index, cands[b].index;
            && i < |avail| && j < |avail|
            && (j in urgent ==> i in urgent)
            && (i !in urgent && InWindow(j, cursor) ==> InWindow(i, cursor))
            && (i !in urgent && j !in urgent && InWindow(i, cursor) && InWindow(j, cursor) ==> i < j)
            && (i !in urgent && j !in urgent && !InWindow(i, cursor) ==> |avail[i]| <= |avail[j]|)
  {
    assert Describes(cands[a], cursor, avail, urgent) && Describes(cands[b], cursor, avail, urgent);
  }

  // A demanded chunk that can be asked for is a candidate, scores 0, and has only other
  // demanded chunks before it.
  lemma UrgentFirst(cands: seq<Candidate>, missing: set<nat>, cursor: int, avail: T.Avail,
                    inFlight: set<nat>, urgent: set<nat>, i: nat) returns (k: nat)
    requires Prioritized(cands, missing, cursor, avail, inFlight, urgent)
    requires i in urgent && Wanted(i, missing, avail, inFlight)
    ensures k < |cands| && cands[k].index == i && cands[k].score == 0.0
    ensures forall a | 0 <= a < k :: cands[a].index in urgent
  {
    assert Listed(cands, i);
    k :| 0 <= k < |cands| && cands[k].index == i;
    assert Describes(cands[k], cursor, avail, urgent);
    forall a | 0 <= a < k
      ensures cands[a].index in urgent
    {
      TierOrder(cands, missing, cursor, avail, inFlight, urgent, a, k);
    }
  }

  // ---------------------------------------------------------------- sorting

  predicate SameElements(r: seq<Candidate>, cands: seq<Candidate>) {
    (forall c | c in r :: c in cands) && (forall c | c in cands :: c in r)
  }

  lemma ConsSorted(c: Candidate, rest: seq<Candidate>)
    requires Sorted(rest) && DistinctChunks(rest)
    requires forall x | x in rest :: c.score <= x.score && c.index != x.index
    ensures Sorted([c] + rest) && DistinctChunks([c] + rest)
  {}

  function InsertByScore(c: Candidate, cands: seq<Candidate>): (r: seq<Candidate>)
    requires Sorted(cands) && DistinctChunks(cands) && forall x | x in cands :: x.index != c.index
    ensures Sorted(r) && DistinctChunks(r) && SameElements(r, cands + [c])
  {
    if cands == [] then [c]
    else
      var first, tail := cands[0], cands[1..];
      assert cands == [first] + tail;
      if c.score < first.score then
        ConsSorted(c, cands);
        [c] + cands
      else
        var rest := InsertByScore(c, tail);
        assert forall x | x in rest :: x in tail || x == c;
        ConsSorted(first, rest);
        [first] + rest
  }

  // Stands for sort.Slice, which does not say how it orders equal scores.
  method SortByScore(cands: seq<Candidate>) returns (r: seq<Candidate>)
    requires DistinctChunks(cands)
    ensures Sorted(r) && DistinctChunks(r) && SameElements(r, cands)
  {
    r := [];
    for k := 0 to |cands|
      invariant Sorted(r) && DistinctChunks(r) && SameElements(r, cands[..k])
    {
      assert cands[..k + 1] == cands[..k] + [cands[k]];
      r := InsertByScore(cands[k], r);
    }
    assert cands[..|cands|] == cands;
  }

  lemma ListedByElement(r: seq<Candidate>, cands: seq<Candidate>, i: nat)
    requires SameElements(r, cands)
    ensures Listed(r, i) <==> Listed(cands, i)
  {
    if Listed(r, i) {
      var k :| 0 <= k < |r| && r[k].index == i;
      assert r[k] in cands;
    }
    if Listed(cands, i) {
      var k :| 0 <= k < |cands| && cands[k].index == i;
      assert cands[k] in r;
    }
  }

  lemma ListedAfterAppend(cands: seq<Candidate>, c: Candidate, i: nat)
    ensures Listed(cands + [c], i) <==> Listed(cands, i) || i == c.index
  {
    var all := cands + [c];
    assert all[|cands|] == c;
    if Listed(cands, i) {
      var k :| 0 <= k < |cands| && cands[k].index == i;
      assert all[k].index == i;
    }
    if Listed(all, i) {
      var k :| 0 <= k < |all| && all[k].index == i;
      assert k < |cands| ==> cands[k].index == i;
    }
  }

  method PrioritizeChunks(missing: seq<nat>, cursor: int, tracker: T.Tracker, inFlight: set<nat>, urgent: set<nat>)
    returns (cands: seq<Candidate>)
    requires forall a, b | 0 <= a < b < |missing| :: missing[a] != missing[b]
    ensures Prioritized(cands, ToSet(missing), cursor, tracker.availability[..], inFlight, urgent)
  {
    ghost var avail := tracker.availability[..];
    var found: seq<Candidate> := [];
    for k := 0 to |missing|
      invariant forall c | c in found :: Describes(c, cursor, avail, urgent)
      invariant forall i: nat :: Listed(found, i) <==> Wanted(i, ToSet(missing[..k]), avail, inFlight)
      invariant DistinctChunks(found)
    {
      var idx := missing[k];
      assert idx !in missing[..k];
      assert ToSet(missing[..k + 1]) == ToSet(missing[..k]) + {idx};
      if idx !in inFlight {
        var ids := tracker.PeerIDsWithChunk(idx);
        if |ids| > 0 {
          assert ids[0] in ids;
          var rarity := tracker.Rarity(idx);
          var c := Candidate(idx, ScoreChunk(idx, cursor, rarity, urgent), ids);
          forall i: nat
            ensures Listed(found + [c], i) <==> Listed(found, i) || i == idx
          {
            ListedAfterAppend(found, c, i);
          }
          assert !Listed(found, idx);
          found := found + [c];
        }
      }
    }
    assert missing[..|missing|] == missing;
    cands := SortByScore(found);
    forall i: nat
      ensures Listed(cands, i) <==> Listed(found, i)
    {
      ListedByElement(cands, found, i);
    }
  }

  // ---------------------------------------------------------------- choosing a peer

  // Connected and not saturated.
  predicate Available(peers: map<PeerId, PeerState>, id: PeerId) {
    id in peers && |peers[id].inFlight| < MAX_IN_FLIGHT_PER_PEER
  }

  function PeerScore(p: PeerState): real {
    (if p.speed <= 0.0 then 100000.0 else p.speed) / (1 + |p.inFlight|) as real
  }

  // A peer not measured yet counts as 100000 bytes a second.
  function Rate(p: PeerState): real {
    if p.speed <= 0.0 then 100000.0 else p.speed
  }

  // Of two peers the one with more speed per request wins, counting the request to come: scores
  // compare as the cross products do.
  lemma ScoresCompare(p: PeerState, q: PeerState)
    ensures PeerScore(p) > PeerScore(q) <==>
            Rate(p) * (1 + |q.inFlight|) as real > Rate(q) * (1 + |p.inFlight|) as real
  {
    var a, b := (1 + |p.inFlight|) as real, (1 + |q.inFlight|) as real;
    CrossMultiply(Rate(p), a, Rate(q), b);
  }

  // Among peers not measured yet, as among equally fast ones, the lighter load wins.
  lemma LighterLoadWins(p: PeerState, q: PeerState)
    requires (p.speed <= 0.0 && q.speed <= 0.0) || p.speed == q.speed
    ensures PeerScore(p) > PeerScore(q) <==> |p.inFlight| < |q.inFlight|
  {
    var a, b, k := (1 + |p.inFlight|) as real, (1 + |q.inFlight|) as real, Rate(p);
    ScoresCompare(p, q);
    SameFactor(b, a, k, Rate(q));
  }

  lemma CrossMultiply(x: real, a: real, y: real, b: real)
    requires a > 0.0 && b > 0.0
    ensures x / a > y / b <==> x * b > y * a
  {
    assert (x / a) * a == x && (y / b) * b == y;
    assert x * b == (x / a) * (a * b) && y * a == (y / b) * (a * b);
    Scaled(x / a, y / b, a * b);
  }

  lemma SameFactor(u: real, v: real, k: real, l: real)
    requires k > 0.0 && k == l
    ensures k * u > l * v <==> u > v
  {
    Scaled(u, v, k);
    assert k * u == u * k && l * v == v * k;
  }

  lemma Scaled(u: real, v: real, k: real)
    requires k > 0.0
    ensures u > v <==> u * k > v * k
  {
    if u > v {
      assert (u - v) * k > 0.0;
    } else {
      assert (v - u) * k >= 0.0;
    }
  }

  // The chosen peer is available and none of the available holders has a better score.
  predicate Best(peers: map<PeerId, PeerState>, ids: seq<PeerId>, best: PeerId) {
    && best in ids && Available(peers, best)
    && forall id | id in ids && Available(peers, id) :: PeerScore(peers[id]) <= PeerScore(peers[best])
  }

  // The first of the best holders, if any holder is available.
  function Select(peers: map<PeerId, PeerState>, ids: seq<PeerId>): Option<PeerId> {
    if ids == [] then None
    else
      var id, best := ids[|ids| - 1], Select(peers, ids[..|ids| - 1]);
      if !Available(peers, id) then best
      else if best.None? || best.value !in peers || PeerScore(peers[id]) > PeerScore(peers[best.value]) then Some(id)
      else best
  }

  // The choice fails exactly when no holder is available, and otherwise is a best one.
  lemma {:induction false} SelectIsBest(peers: map<PeerId, PeerState>, ids: seq<PeerId>)
    ensures Select(peers, ids).None? <==> forall id | id in ids :: !Available(peers, id)
    ensures Select(peers, ids).Some? ==> Best(peers, ids, Select(peers, ids).value)
  {
    if ids != [] {
      var id, rest := ids[|ids| - 1], ids[..|ids| - 1];
      assert ids == rest + [id];
      SelectIsBest(peers, rest);
    }
  }

  method SelectPeer(ids: seq<PeerId>, peers: map<PeerId, Peer>) returns (r: Option<PeerId>)
    ensures r == Select(View(peers), ids)
  {
    r := None;
    var bestScore := 0.0;
    for k := 0 to |ids|
      invariant r == Select(View(peers), ids[..k])
      invariant r.Some? ==> r.value in peers && bestScore == PeerScore(peers[r.value].Abs())
    {
      assert ids[..k + 1][..k] == ids[..k];
      var id := ids[k];
      if id in peers {
        var p := peers[id];
        var load := p.InFlightCount();
        if load < MAX_IN_FLIGHT_PER_PEER {
          var speed := if p.speed <= 0.0 then 100000.0 else p.speed;
          var score := speed / (1 + load) as real;
          if r.None? || score > bestScore {
            r := Some(id);
            bestScore := score;
          }
        }
      }
    }
    assert ids[..|ids|] == ids;
  }

  // ---------------------------------------------------------------- the assignment loop

  datatype Assignment = Assignment(peer: PeerId, chunk: nat)

  // Candidates in order, each to the best available holder, until the budget is used up. The
  // peers' loads do not change while the loop runs.
  function Assign(cands: seq<Candidate>, peers: map<PeerId, PeerState>, budget: nat): seq<Assignment> {
    if cands == [] || budget == 0 then []
    else
      match Select(peers, cands[0].holders)
      case None => Assign(cands[1..], peers, budget)
      case Some(id) => [Assignment(id, cands[0].index)] + Assign(cands[1..], peers, budget - 1)
  }

  predicate Assigned(asg: seq<Assignment>, i: nat) {
    exists k :: 0 <= k < |asg| && asg[k].chunk == i
  }

  lemma AssignedCons(a: Assignment, rest: seq<Assignment>, i: nat)
    ensures Assigned([a] + rest, i) <==> a.chunk == i || Assigned(rest, i)
  {
    var all := [a] + rest;
    assert all[0] == a;
    if Assigned(rest, i) {
      var k :| 0 <= k < |rest| && rest[k].chunk == i;
      assert all[k + 1].chunk == i;
    }
    if Assigned(all, i) {
      var k :| 0 <= k < |all| && all[k].chunk == i;
      assert k > 0 ==> rest[k - 1].chunk == i;
    }
  }

  // The assignment asks the best available holder of some candidate for its chunk.
  ghost predicate FromCandidate(peers: map<PeerId, PeerState>, cands: seq<Candidate>, a: Assignment) {
    exists c :: c in cands && c.index == a.chunk && Best(peers, c.holders, a.peer)
  }

  // Every assignment is of a candidate, to the best of its holders, within the budget.
  lemma {:induction false} AssignSound(cands: seq<Candidate>, peers: map<PeerId, PeerState>, budget: nat)
    ensures var asg := Assign(cands, peers, budget);
            |asg| <= budget && forall a | a in asg :: FromCandidate(peers, cands, a)
  {
    if cands != [] && budget > 0 {
      var first, tail := cands[0], cands[1..];
      var chosen := Select(peers, first.holders);
      AssignSound(tail, peers, if chosen.None? then budget else budget - 1);
      forall a | a in Assign(cands, peers, budget)
        ensures FromCandidate(peers, cands, a)
      {
        if chosen.Some? && a == Assignment(chosen.value, first.index) {
          SelectIsBest(peers, first.holders);
          assert first in cands;
        } else {
          assert FromCandidate(peers, tail, a);
        }
      }
    }
  }

  // No chunk is assigned twice, so one tick's batches are pairwise disjoint.
  lemma {:induction false} AssignDistinct(cands: seq<Candidate>, peers: map<PeerId, PeerState>, budget: nat)
    requires DistinctChunks(cands)
    ensures var asg := Assign(cands, peers, budget);
            forall x, y | 0 <= x < y < |asg| :: asg[x].chunk != asg[y].chunk
  {
    if cands != [] && budget > 0 {
      var first, tail := cands[0], cands[1..];
      var chosen := Select(peers, first.holders);
      var left := if chosen.None? then budget else budget - 1;
      AssignDistinct(tail, peers, left);
      AssignSound(tail, peers, left);
      forall a | a in Assign(tail, peers, left)
        ensures a.chunk != first.index
      {
        assert FromCandidate(peers, tail, a);
      }
    }
  }

  // A candidate that gets no request, although a later one does or budget is left over, has no
  // available holder.
  lemma {:induction false} SkippedOnlyIfUnavailable(
    cands: seq<Candidate>, peers: map<PeerId, PeerState>, budget: nat, j: nat, k: nat)
    requires DistinctChunks(cands) && j < |cands|
    requires var asg := Assign(cands, peers, budget);
             && !Assigned(asg, cands[j].index)
             && ((j < k < |cands| && Assigned(asg, cands[k].index)) || |asg| < budget)
    ensures forall id | id in cands[j].holders :: !Available(peers, id)
  {
    if budget > 0 {
      var first, tail := cands[0], cands[1..];
      SelectIsBest(peers, first.holders);
      match Select(peers, first.holders) {
        case None =>
          if j > 0 { SkippedOnlyIfUnavailable(tail, peers, budget, j - 1, if k > 0 then k - 1 else 0); }
        case Some(id) =>
          var rest := Assign(tail, peers, budget - 1);
          AssignedCons(Assignment(id, first.index), rest, cands[j].index);
          if k < |cands| { AssignedCons(Assignment(id, first.index), rest, cands[k].index); }
          if j > 0 { SkippedOnlyIfUnavailable(tail, peers, budget - 1, j - 1, if k > 0 then k - 1 else 0); }
      }
    }
  }

  // No priority inversion: if the tick requests one candidate but not another with a strictly
  // better score, every holder of the other was disconnected or saturated.
  lemma NoPriorityInversion(cands: seq<Candidate>, peers: map<PeerId, PeerState>, budget: nat, j: nat, k: nat)
    requires Sorted(cands) && DistinctChunks(cands) && j < |cands| && k < |cands|
    requires cands[j].score < cands[k].score
    requires Assigned(Assign(cands, peers, budget), cands[k].index)
    requires !Assigned(Assign(cands, peers, budget), cands[j].index)
    ensures forall id | id in cands[j].holders :: id !in peers || |peers[id].inFlight| >= 4
  {
    SkippedOnlyIfUnavailable(cands, peers, budget, j, k);
    forall id | id in cands[j].holders
      ensures id !in peers || |peers[id].inFlight| >= MAX_IN_FLIGHT_PER_PEER
    {
      assert !Available(peers, id);
    }
  }
}
