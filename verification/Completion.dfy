/** How fast the download completes when every request is answered before the next tick, and what
    rejected chunks take away from that. */
module Completion {
  import opened Bytes
  import opened Bitfield
  import opened Chunker
  import opened Peers
  import opened Strategy
  import opened Engine
  import opened Ownership
  import opened Sets
  import T = Tracker

  // No bit below n is clear, as far as the bitfield reaches.
  predicate NoneClear(bits: seq<byte>, n: nat) {
    forall i: nat :: i < n && i / 8 < |bits| ==> HasBit(bits, i)
  }

  // The host is connected and listed for every chunk, and its bitfield claims nothing less.
  ghost predicate HostListed(s: State, host: PeerId) {
    && host in s.peers && (forall i | 0 <= i < |s.avail| :: host in s.avail[i])
    && (s.peers[host].bits.Some? ==> NoneClear(s.peers[host].bits.value, |s.avail|))
  }

  // No peer owes anything; the scheduler's set has only the chunks in `stuck`, which nobody
  // will deliver.
  ghost predicate Quiet(s: State, host: PeerId, stuck: set<nat>) {
    && HostListed(s, host)
    && s.inFlight == stuck && stuck <= Missing(s) && |stuck| <= MAX_TOTAL_IN_FLIGHT
    && (forall id, i :: !OwnedBy(s, id, i))
    && (forall i | i in s.have :: i < |s.avail|) && s.urgent <= Missing(s)
  }

  lemma NothingOwned(s: State, id: PeerId)
    requires id in s.peers && forall i :: !OwnedBy(s, id, i)
    ensures s.peers[id].inFlight == map[]
  {
    forall i: nat
      ensures i !in s.peers[id].inFlight
    {
      assert !OwnedBy(s, id, i);
    }
  }

  lemma NothingExpires(s: State, now: real)
    requires forall id, i :: !OwnedBy(s, id, i)
    ensures AfterTimeouts(s, now) == s
  {
    forall id | id in s.peers
      ensures Expire(s.peers[id], REQUEST_TIMEOUT, now) == s.peers[id]
    {
      NothingOwned(s, id);
      assert Expired(s.peers[id], REQUEST_TIMEOUT, now) == {};
    }
    assert ExpireAll(s.peers, now) == s.peers;
    assert TimedOut(s.peers, now) == {};
  }

  // When every candidate has an available holder, the first ones are assigned until the budget
  // or the list is exhausted.
  lemma {:induction false} AllAssigned(cands: seq<Candidate>, peers: map<PeerId, PeerState>, budget: nat)
    requires forall c | c in cands :: Select(peers, c.holders).Some?
    ensures |Assign(cands, peers, budget)| == Min(budget, |cands|)
  {
    if cands != [] && budget > 0 {
      assert cands[0] in cands;
      AllAssigned(cands[1..], peers, budget - 1);
    }
  }

  function Indices(cands: seq<Candidate>): set<nat> {
    set c | c in cands :: c.index
  }

  lemma {:induction false} IndicesSize(cands: seq<Candidate>)
    requires DistinctChunks(cands)
    ensures |Indices(cands)| == |cands|
  {
    if cands != [] {
      var init, last := cands[..|cands| - 1], cands[|cands| - 1];
      assert cands == init + [last];
      IndicesSize(init);
      assert Indices(cands) == Indices(init) + {last.index};
    }
  }

  // All missing chunks but the stuck ones are candidates.
  lemma CandidateIndices(s: State, host: PeerId, stuck: set<nat>, cands: seq<Candidate>)
    requires Quiet(s, host, stuck) && CandidatesOf(s, cands)
    ensures Indices(cands) == Missing(s) - stuck
  {
    forall i: nat
      ensures i in Indices(cands) <==> i in Missing(s) - stuck
    {
      assert Listed(cands, i) <==> Wanted(i, Missing(s), s.avail, s.inFlight);
      if i in Missing(s) - stuck {
        assert host in s.avail[i];
        var k :| 0 <= k < |cands| && cands[k].index == i;
        assert cands[k] in cands;
      }
      if i in Indices(cands) {
        var c :| c in cands && c.index == i;
        var k :| 0 <= k < |cands| && cands[k] == c;
      }
    }
  }

  lemma CandidatesAvailable(s: State, host: PeerId, stuck: set<nat>, cands: seq<Candidate>)
    requires Quiet(s, host, stuck) && CandidatesOf(s, cands)
    ensures |cands| == |Missing(s)| - |stuck|
    ensures forall c | c in cands :: Select(s.peers, c.holders).Some?
  {
    CandidateIndices(s, host, stuck, cands);
    IndicesSize(cands);
    forall c | c in cands
      ensures Select(s.peers, c.holders).Some?
    {
      assert Describes(c, s.cursor, s.avail, s.urgent);
      assert host in c.holders;
      NothingOwned(s, host);
      assert Available(s.peers, host);
      SelectIsBest(s.peers, c.holders);
    }
  }

  // A tick from a quiet state asks for exactly min(16 - stuck, missing - stuck) chunks.
  lemma TickAsks(s: State, host: PeerId, stuck: set<nat>, now: real, cands: seq<Candidate>)
    requires Quiet(s, host, stuck) && Enabled(s, Tick(now, cands))
    ensures var asg := TickAssignments(s, now, cands);
            && |asg| == |Chunks(asg)| == Min(16 - |stuck|, |Missing(s)| - |stuck|)
            && Chunks(asg) <= Missing(s) - stuck
            && (forall a | a in asg :: a.peer in s.peers)
            && (forall x, y | 0 <= x < y < |asg| :: asg[x].chunk != asg[y].chunk)
  {
    NothingExpires(s, now);
    SubsetSize(stuck, Missing(s));
    if Budget(s) > 0 {
      CandidatesAvailable(s, host, stuck, cands);
      AllAssigned(cands, s.peers, Budget(s));
    }
    AssignmentsFresh(s, cands);
    var asg := TickAssignments(s, now, cands);
    ChunksSize(asg);
    forall i | i in Chunks(asg)
      ensures i in Missing(s) - stuck
    {
      var a :| a in asg && a.chunk == i;
    }
  }

  // And owes nothing else.
  lemma TickOwes(s: State, host: PeerId, stuck: set<nat>, now: real, cands: seq<Candidate>)
    requires Quiet(s, host, stuck) && Enabled(s, Tick(now, cands))
    ensures var asg := TickAssignments(s, now, cands);
            Outstanding(TickOf(s, now, cands), s, host, stuck, asg, Chunks(asg))
  {
    TickAsks(s, host, stuck, now, cands);
    NothingExpires(s, now);
    var asg, t := TickAssignments(s, now, cands), TickOf(s, now, cands);
    assert t.have == s.have + (Chunks(asg) - Chunks(asg));
    forall id, i
      ensures OwnedBy(t, id, i) <==> Assignment(id, i) in asg && i in Chunks(asg)
    {
      InBatch(asg, id, i);
      assert !OwnedBy(s, id, i);
      if Assignment(id, i) in asg {
        assert Assignment(id, i).chunk in Chunks(asg);
      }
    }
  }

  // What rejections cost: with the host idle and complete, a tick asks for nothing exactly if
  // sixteen chunks were rejected or nothing else is missing.
  lemma StopsExactly(s: State, host: PeerId, rejected: set<nat>, now: real, cands: seq<Candidate>)
    requires Inv(s, rejected) && HostListed(s, host) && (forall id, i :: !OwnedBy(s, id, i))
    requires Enabled(s, Tick(now, cands))
    ensures TickAssignments(s, now, cands) == [] <==> |rejected| == MAX_TOTAL_IN_FLIGHT || Missing(s) == rejected
  {
    AllRejected(s, rejected);
    TickAsks(s, host, rejected, now, cands);
    SubsetSize(rejected, Missing(s));
  }

  // When no peer owes anything, the scheduler's set has only the rejected chunks.
  lemma AllRejected(s: State, rejected: set<nat>)
    requires Inv(s, rejected) && forall id, i :: !OwnedBy(s, id, i)
    ensures s.inFlight == rejected && rejected <= Missing(s)
  {
    forall i: nat
      ensures i in s.inFlight <==> i in rejected
    {
      assert !Owned(s, i);
      assert i in s.inFlight && !Owned(s, i) <==> i in rejected;
    }
  }

  // ---------------------------------------------------------------- answering

  // Between two ticks: the requests are answered well, other pieces do not verify, the host does
  // not take back a chunk or leave, and no peer leaves that was asked. Bitfields, HAVEs,
  // connections, demands and cursor moves come as they like.
  predicate Harmless(host: PeerId, asg: seq<Assignment>, n: nat, e: Event) {
    match e
    case Tick(_, _) => false
    case Piece(from, index, _, good, _) => good <==> Assignment(from, index) in asg
    case BitfieldMsg(from, bits) => from == host ==> NoneClear(bits, n)
    case HaveMsg(_, _, _) => true
    case Connect(_, _) => true
    case Disconnect(id) => id != host && forall a | a in asg :: a.peer != id
    case Demand(_) => true
    case SetCursor(_) => true
  }

  predicate Answers(e: Event, a: Assignment) {
    e.Piece? && e.from == a.peer && e.index == a.chunk
  }

  // Part of the way through the answers: the chunks in `left` are still outstanding.
  ghost predicate Outstanding(
    s: State, base: State, host: PeerId, stuck: set<nat>, asg: seq<Assignment>, left: set<nat>) {
    && left <= Chunks(asg) && Chunks(asg) <= Missing(base) - stuck && stuck <= Missing(base)
    && |s.avail| == |base.avail| && HostListed(s, host)
    && s.have == base.have + (Chunks(asg) - left) && s.inFlight == stuck + left && s.urgent <= Missing(s)
    && (forall id, i :: OwnedBy(s, id, i) <==> Assignment(id, i) in asg && i in left)
  }

  lemma WithBitNoneClear(bits: seq<byte>, n: nat, index: nat)
    requires NoneClear(bits, n) && index / 8 < |bits|
    ensures NoneClear(WithBit(bits, index), n)
  {
    WithBitAddsExactly(bits, index);
    forall i: nat | i < n && i / 8 < |bits|
      ensures HasBit(WithBit(bits, index), i)
    {
      assert HasBit(bits, i) && i in Bits(bits);
      assert i in Bits(WithBit(bits, index));
    }
  }

  // A bitfield keeps the host listed if it is another peer's or has no clear bit.
  lemma UpdateKeepsListed(avail: T.Avail, host: PeerId, from: PeerId, bits: seq<byte>)
    requires forall i | 0 <= i < |avail| :: host in avail[i]
    requires from == host ==> NoneClear(bits, |avail|)
    ensures forall i | 0 <= i < |avail| :: host in T.Updated(avail, from, bits)[i]
  {}

  lemma HaveKeepsListed(s: State, host: PeerId, from: PeerId, index: nat, held: Option<seq<byte>>)
    requires HostListed(s, host)
    ensures HostListed(HaveOf(s, from, index, held), host)
  {
    var bits := WithHave(if from in s.peers then s.peers[from] else NEW_PEER.(bits := held), index).bits;
    if from == host && s.peers[host].bits.Some? && index / 8 < |s.peers[host].bits.value| {
      WithBitNoneClear(s.peers[host].bits.value, |s.avail|, index);
    }
    if bits.Some? {
      UpdateKeepsListed(s.avail, host, from, bits.value);
    }
  }

  lemma HarmlessKeepsListed(s: State, host: PeerId, asg: seq<Assignment>, e: Event)
    requires HostListed(s, host) && Enabled(s, e) && Harmless(host, asg, |s.avail|, e)
    ensures HostListed(Next(s, e), host) && |Next(s, e).avail| == |s.avail|
  {
    match e {
      case BitfieldMsg(from, bits) => UpdateKeepsListed(s.avail, host, from, bits);
      case HaveMsg(from, index, held) => HaveKeepsListed(s, host, from, index, held);
      case Connect(id, held) => if held.Some? { UpdateKeepsListed(s.avail, host, id, held.value); }
      case Piece(_, _, _, _, _) =>
      case Disconnect(_) =>
      case Demand(_) =>
      case SetCursor(_) =>
    }
  }

  lemma OneAnswer(s: State, base: State, host: PeerId, stuck: set<nat>, asg: seq<Assignment>, left: set<nat>, e: Event)
    requires Outstanding(s, base, host, stuck, asg, left) && Enabled(s, e)
    requires Harmless(host, asg, |s.avail|, e) && e.Piece?
    requires forall x, y | 0 <= x < y < |asg| :: asg[x].chunk != asg[y].chunk
    ensures Outstanding(Next(s, e), base, host, stuck, asg, if e.good then left - {e.index} else left)
  {
    var t := Next(s, e);
    HarmlessKeepsListed(s, host, asg, e);
    if e.good {
      assert Assignment(e.from, e.index).chunk in Chunks(asg);
      assert t.have == base.have + (Chunks(asg) - (left - {e.index}));
    } else {
      assert Accepted(s, e.index, e.good) ==> e.index in s.have && t.have == s.have && t.inFlight == s.inFlight;
    }
    forall id, i
      ensures OwnedBy(t, id, i) <==> Assignment(id, i) in asg && i in if e.good then left - {e.index} else left
    {
      ClearedOwner(s, e, id, i);
      if e.good && i == e.index && Assignment(id, i) in asg {
        OneAssignmentPerChunk(asg, id, e.from, i);
      }
    }
  }

  lemma OtherHarmless(
    s: State, base: State, host: PeerId, stuck: set<nat>, asg: seq<Assignment>, left: set<nat>, e: Event)
    requires Outstanding(s, base, host, stuck, asg, left) && Enabled(s, e)
    requires Harmless(host, asg, |s.avail|, e) && !e.Piece?
    ensures Outstanding(Next(s, e), base, host, stuck, asg, left)
  {
    var t := Next(s, e);
    HarmlessKeepsListed(s, host, asg, e);
    if e.Disconnect? {
      LeaverOwesNothing(s, base, host, stuck, asg, left, e.id);
    }
    forall id, i
      ensures OwnedBy(t, id, i) <==> OwnedBy(s, id, i)
    {}
  }

  lemma LeaverOwesNothing(
    s: State, base: State, host: PeerId, stuck: set<nat>, asg: seq<Assignment>, left: set<nat>, id: PeerId)
    requires Outstanding(s, base, host, stuck, asg, left) && forall a | a in asg :: a.peer != id
    ensures id in s.peers ==> s.peers[id].inFlight == map[]
  {
    if id in s.peers {
      forall i: nat
        ensures i !in s.peers[id].inFlight
      {
        assert OwnedBy(s, id, i) <==> Assignment(id, i) in asg && i in left;
        assert Assignment(id, i).peer == id;
      }
    }
  }

  lemma {:induction false} AllAnswers(
    s: State, base: State, host: PeerId, stuck: set<nat>, asg: seq<Assignment>, left: set<nat>, events: seq<Event>)
    requires Outstanding(s, base, host, stuck, asg, left) && Legal(s, events)
    requires forall e | e in events :: Harmless(host, asg, |base.avail|, e)
    requires forall x, y | 0 <= x < y < |asg| :: asg[x].chunk != asg[y].chunk
    requires forall a | a in asg && a.chunk in left :: exists e :: e in events && Answers(e, a)
    ensures Outstanding(Run(s, events), base, host, stuck, asg, {})
    decreases |events|
  {
    if events == [] {
      assert left == {};
    } else {
      var e := events[0];
      assert e in events && forall e' | e' in events[1..] :: e' in events;
      var left' := if e.Piece? && e.good then left - {e.index} else left;
      if e.Piece? {
        OneAnswer(s, base, host, stuck, asg, left, e);
      } else {
        OtherHarmless(s, base, host, stuck, asg, left, e);
      }
      forall a | a in asg && a.chunk in left'
        ensures exists e' :: e' in events[1..] && Answers(e', a)
      {
        var e' :| e' in events && Answers(e', a);
        assert e'.good by {
          assert Harmless(host, asg, |base.avail|, e');
          assert Assignment(e'.from, e'.index) == a;
        }
        assert e' != e;
        assert e' in events[1..];
      }
      AllAnswers(Next(s, e), base, host, stuck, asg, left', events[1..]);
    }
  }

  // ---------------------------------------------------------------- rounds

  // One tick, and then good answers to all its requests, in any order, possibly repeated, among
  // other harmless events.
  ghost predicate IsRound(s: State, host: PeerId, events: seq<Event>) {
    && events != [] && events[0].Tick? && Legal(s, events)
    && var asg := TickAssignments(s, events[0].now, events[0].cands);
       && (forall e | e in events[1..] :: Harmless(host, asg, |s.avail|, e))
       && (forall a | a in asg :: exists e :: e in events[1..] && Answers(e, a))
  }

  // A round stores exactly min(16 - stuck, missing - stuck) new chunks and leaves nothing else in
  // flight.
  lemma RoundStores(s: State, host: PeerId, stuck: set<nat>, events: seq<Event>)
    requires Quiet(s, host, stuck) && IsRound(s, host, events)
    ensures Quiet(Run(s, events), host, stuck) && s.have <= Run(s, events).have
    ensures var k := Min(16 - |stuck|, |Missing(s)| - |stuck|);
            |Run(s, events).have - s.have| == k && |Missing(Run(s, events))| == |Missing(s)| - k
  {
    var now, cands := events[0].now, events[0].cands;
    TickAsks(s, host, stuck, now, cands);
    TickOwes(s, host, stuck, now, cands);
    var asg := TickAssignments(s, now, cands);
    AllAnswers(Next(s, events[0]), s, host, stuck, asg, Chunks(asg), events[1..]);
    AllStored(s, Run(s, events), host, stuck, asg);
  }

  lemma AllStored(s: State, u: State, host: PeerId, stuck: set<nat>, asg: seq<Assignment>)
    requires Quiet(s, host, stuck) && Outstanding(u, s, host, stuck, asg, {})
    ensures Quiet(u, host, stuck) && s.have <= u.have && |u.have - s.have| == |Chunks(asg)|
    ensures |Missing(u)| == |Missing(s)| - |Chunks(asg)|
  {
    assert u.have - s.have == Chunks(asg);
    assert Missing(u) == Missing(s) - Chunks(asg);
  }

  ghost predicate AreRounds(s: State, host: PeerId, rounds: seq<seq<Event>>)
    decreases |rounds|
  {
    rounds == [] || (IsRound(s, host, rounds[0]) && AreRounds(Run(s, rounds[0]), host, rounds[1..]))
  }

  function RunRounds(s: State, rounds: seq<seq<Event>>): State
    decreases |rounds|
  {
    if rounds == [] then s else RunRounds(Run(s, rounds[0]), rounds[1..])
  }

  function Max0(x: int): nat {
    if x < 0 then 0 else x
  }

  // Of n missing chunks, r of them rejected, those that are still missing and not rejected after
  // k rounds.
  function Rest(n: int, r: int, k: int): nat {
    Max0(n - r - (16 - r) * k)
  }

  lemma RestNow(n: int, r: int)
    requires r <= n
    ensures Rest(n, r, 0) == n - r
  {
    assert (16 - r) * 0 == 0;
  }

  lemma RestLater(n: int, r: int, k: int)
    requires r <= n && r <= 16 && k > 0
    ensures Rest(n - Min(16 - r, n - r), r, k - 1) == Rest(n, r, k)
  {
    var b := 16 - r;
    assert b * k == b * (k - 1) + b;
    MulMono(0, k - 1, b);
  }

  // How many chunks are missing before each round, and at the end.
  function Counts(s: State, rounds: seq<seq<Event>>): (ms: seq<int>)
    ensures |ms| == |rounds| + 1
    decreases |rounds|
  {
    [|Missing(s)|] + if rounds == [] then [] else Counts(Run(s, rounds[0]), rounds[1..])
  }

  // Each count but the first is min(16 - r, what is left) below the one before.
  predicate Falls(ms: seq<int>, r: int)
    decreases |ms|
  {
    |ms| <= 1 || (ms[1] == ms[0] - Min(16 - r, ms[0] - r) && Falls(ms[1..], r))
  }

  lemma {:induction false} FallsTo(ms: seq<int>, r: int)
    requires ms != [] && Falls(ms, r) && r <= ms[0] && r <= 16
    ensures ms[|ms| - 1] - r == Rest(ms[0], r, |ms| - 1)
    decreases |ms|
  {
    if |ms| == 1 {
      RestNow(ms[0], r);
    } else {
      FallsTo(ms[1..], r);
      RestLater(ms[0], r, |ms| - 1);
    }
  }

  lemma {:induction false} RoundsFall(s: State, host: PeerId, stuck: set<nat>, rounds: seq<seq<Event>>)
    requires Quiet(s, host, stuck) && AreRounds(s, host, rounds)
    ensures Quiet(RunRounds(s, rounds), host, stuck) && Falls(Counts(s, rounds), |stuck|)
    ensures Counts(s, rounds)[0] == |Missing(s)| && Counts(s, rounds)[|rounds|] == |Missing(RunRounds(s, rounds))|
    decreases |rounds|
  {
    if rounds != [] {
      RoundStores(s, host, stuck, rounds[0]);
      RoundsFall(Run(s, rounds[0]), host, stuck, rounds[1..]);
      assert Counts(s, rounds)[1..] == Counts(Run(s, rounds[0]), rounds[1..]);
    }
  }

  // With r chunks rejected before, k rounds store exactly (16 - r)k of the other missing chunks,
  // or all of them, and never a rejected one.
  lemma RoundsStore(s: State, host: PeerId, stuck: set<nat>, rounds: seq<seq<Event>>)
    requires Quiet(s, host, stuck) && AreRounds(s, host, rounds)
    ensures Quiet(RunRounds(s, rounds), host, stuck)
    ensures |Missing(RunRounds(s, rounds))| - |stuck| == Rest(|Missing(s)|, |stuck|, |rounds|)
  {
    SubsetSize(stuck, Missing(s));
    RoundsFall(s, host, stuck, rounds);
    FallsTo(Counts(s, rounds), |stuck|);
  }

  lemma Finished(t: State, host: PeerId, n: nat, k: nat)
    requires Quiet(t, host, {}) && |Missing(t)| == Rest(n, 0, k)
    ensures |Missing(t)| == Max0(n - 16 * k) && (Missing(t) == {} <==> k >= (n + 15) / 16)
    ensures t.inFlight == {} && (Missing(t) == {} ==> t.urgent == {})
  {
    assert |Missing(t)| == 0 <==> Missing(t) == {};
  }

  // N missing chunks are finished by round ceil(N / 16) and not earlier, and then the in-flight
  // and urgent sets are empty.
  lemma CompletionBound(s: State, host: PeerId, rounds: seq<seq<Event>>)
    requires Quiet(s, host, {}) && AreRounds(s, host, rounds)
    ensures var t := RunRounds(s, rounds); var n := |Missing(s)|;
            && |Missing(t)| == Max0(n - 16 * |rounds|)
            && (Missing(t) == {} <==> |rounds| >= (n + 15) / 16)
            && t.inFlight == {} && (Missing(t) == {} ==> t.urgent == {})
  {
    RoundsStore(s, host, {}, rounds);
    Finished(RunRounds(s, rounds), host, |Missing(s)|, |rounds|);
  }

  lemma FinishedButRejected(t: State, host: PeerId, rejected: set<nat>, n: nat, k: nat)
    requires Quiet(t, host, rejected) && |Missing(t)| - |rejected| == Rest(n, |rejected|, k)
    ensures rejected <= Missing(t)
    ensures Missing(t) == rejected <==> (16 - |rejected|) * k >= n - |rejected|
  {
    SubsetSize(rejected, Missing(t));
  }

  // With r rejected chunks the download gets as far as the others, at 16 - r a round: never
  // further, and with sixteen nowhere.
  lemma RejectedBound(s: State, host: PeerId, rejected: set<nat>, rounds: seq<seq<Event>>)
    requires Inv(s, rejected) && HostListed(s, host) && (forall id, i :: !OwnedBy(s, id, i))
    requires AreRounds(s, host, rounds)
    ensures var t := RunRounds(s, rounds);
            && rejected <= Missing(t)
            && |Missing(t)| - |rejected| == Rest(|Missing(s)|, |rejected|, |rounds|)
            && (Missing(t) == rejected <==> (16 - |rejected|) * |rounds| >= |Missing(s)| - |rejected|)
  {
    AllRejected(s, rejected);
    RoundsStore(s, host, rejected, rounds);
    FinishedButRejected(RunRounds(s, rounds), host, rejected, |Missing(s)|, |rounds|);
  }
}
