/** Termination of the store's calls, and how the chunk counter relates to the bitfield when
    writers overlap (internal/chunk/store.go:88-108 and 193-198). */
module StoreCount {
  import opened Bytes
  import opened Chunker
  import opened Sets
  import Manifests
  import opened StoreProtocol
  import opened StoreSafety

  // ---------------------------------------------------------------- termination

  // How many more steps the call can take.
  function StepsLeft(c: Config, pc: Pc): nat
    requires ConfigOk(c) && PcOk(c, pc)
  {
    match pc
    case WCheck(_, data) => |data| + 6
    case WWriting(_, data, k) => |data| - k + 5
    case WMark(_) => 4
    case WSignal(_) => 3
    case WClose(_) => 2
    case WNotify(_) => 1
    case WDone => 0
    case RDemand(r, i) => DemandSteps(c, r, i) + 2
    case RDemand2(r, i) => DemandSteps(c, r, i) + 1
    case RInsert(r, i) => DemandSteps(c, r, i)
    case RWait(r, i) => WaitSteps(c, r, i) + 4
    case RLock(r, i) => WaitSteps(c, r, i) + 3
    case RRecheck(r, i) => WaitSteps(c, r, i) + 2
    case RRegister(r, i) => WaitSteps(c, r, i) + 1
    case RBlocked(r, i, _) => WaitSteps(c, r, i)
    case RRead(r, buf) => r.len - |buf| + 1
    case RDone(_, _) => 0
  }

  function WaitSteps(c: Config, r: Req, i: int): nat
    requires ConfigOk(c) && ReqOk(c, r) && i <= Last(c, r)
  {
    5 * (Last(c, r) - i) + r.len + 2
  }

  function DemandSteps(c: Config, r: Req, i: int): nat
    requires ConfigOk(c) && ReqOk(c, r) && First(c, r) <= i <= Last(c, r)
  {
    3 * (Last(c, r) - i) + WaitSteps(c, r, First(c, r)) + 5
  }

  function AllStepsLeft(c: Config, pcs: seq<Pc>): nat
    requires ConfigOk(c) && forall t | 0 <= t < |pcs| :: PcOk(c, pcs[t])
  {
    if pcs == [] then 0 else StepsLeft(c, pcs[0]) + AllStepsLeft(c, pcs[1..])
  }

  lemma {:induction false} StepsUpdate(c: Config, pcs: seq<Pc>, t: nat, pc: Pc)
    requires ConfigOk(c) && (forall u | 0 <= u < |pcs| :: PcOk(c, pcs[u])) && t < |pcs| && PcOk(c, pc)
    ensures AllStepsLeft(c, pcs[t := pc]) == AllStepsLeft(c, pcs) - StepsLeft(c, pcs[t]) + StepsLeft(c, pc)
  {
    if t == 0 {
      assert pcs[0 := pc][1..] == pcs[1..];
    } else {
      assert pcs[t := pc][1..] == pcs[1..][t - 1 := pc];
      StepsUpdate(c, pcs[1..], t - 1, pc);
    }
  }

  lemma WriterCounts(c: Config, s: Sys, pc: Pc)
    requires ConfigOk(c) && |s.file| == c.m.fileSize && PcOk(c, pc) && CanStep(s, pc)
    requires Writer(pc)
    ensures PcOk(c, NextPc(c, s, pc)) && StepsLeft(c, NextPc(c, s, pc)) < StepsLeft(c, pc)
  {}

  lemma ReaderCounts(c: Config, s: Sys, pc: Pc)
    requires ConfigOk(c) && |s.file| == c.m.fileSize && PcOk(c, pc) && CanStep(s, pc)
    requires !Writer(pc)
    ensures PcOk(c, NextPc(c, s, pc)) && StepsLeft(c, NextPc(c, s, pc)) < StepsLeft(c, pc)
  {
    NextPcOk(c, s, pc);
  }

  lemma StepCounts(c: Config, s: Sys, pc: Pc)
    requires ConfigOk(c) && |s.file| == c.m.fileSize && PcOk(c, pc) && CanStep(s, pc)
    ensures PcOk(c, NextPc(c, s, pc)) && StepsLeft(c, NextPc(c, s, pc)) < StepsLeft(c, pc)
  {
    if Writer(pc) {
      WriterCounts(c, s, pc);
    } else {
      ReaderCounts(c, s, pc);
    }
  }

  // Without new calls, every interleaving ends: no schedule keeps the calls busy for ever. With
  // OnlyMissingChunksBlock, each call returns or waits for a chunk that nobody has stored.
  lemma {:induction false} CallsTerminate(c: Config, s: Sys, actions: seq<Action>)
    requires WellTyped(c, s) && Legal(c, s, actions)
    requires forall a | a in actions :: a.Step?
    ensures |actions| <= AllStepsLeft(c, s.threads)
    decreases |actions|
  {
    if actions != [] {
      var t := actions[0].t;
      assert actions[0] in actions;
      StepCounts(c, s, s.threads[t]);
      StepsUpdate(c, s.threads, t, NextPc(c, s, s.threads[t]));
      TypesKept(c, s, actions[0]);
      CallsTerminate(c, Next(c, s, actions[0]), actions[1..]);
    }
  }

  // ---------------------------------------------------------------- the counter

  // IsComplete compares the counter, not the bits.
  predicate IsComplete(c: Config, s: Sys)
    requires ConfigOk(c)
  {
    s.count == Count(c)
  }

  // The counter never falls below the number of set bits.
  lemma NeverTooFew(c: Config, s0: Sys, actions: seq<Action>)
    requires Initial(c, s0) && Legal(c, s0, actions)
    ensures var s := Run(c, s0, actions); s.count >= |s.have|
  {
    InitialInv(c, s0);
    RunKeepsInv(c, s0, actions);
  }

  // The call has seen the bit clear and not yet set it.
  predicate PastTest(pc: Pc) {
    pc.WWriting? || pc.WMark?
  }

  predicate BothPast(s: Sys, t: nat, u: nat) {
    t < |s.threads| && u < |s.threads| && t != u && PastTest(s.threads[t]) && PastTest(s.threads[u])
    && s.threads[t].i == s.threads[u].i
  }

  // Two calls for one chunk are past their test.
  ghost predicate Racing(s: Sys) {
    exists t, u :: BothPast(s, t, u)
  }

  // Some state visited has such a pair.
  ghost predicate EverRaces(c: Config, s: Sys, actions: seq<Action>)
    requires WellTyped(c, s) && Legal(c, s, actions)
    decreases |actions|
  {
    Racing(s) || (actions != [] && (TypesKept(c, s, actions[0]); EverRaces(c, Next(c, s, actions[0]), actions[1..])))
  }

  // A call past its test is about to set a clear bit.
  predicate BitsStillClear(s: Sys) {
    forall t | 0 <= t < |s.threads| && PastTest(s.threads[t]) :: s.threads[t].i !in s.have
  }

  lemma StepKeepsClear(c: Config, s: Sys, a: Action)
    requires WellTyped(c, s) && Enabled(c, s, a) && !Racing(s) && BitsStillClear(s)
    ensures BitsStillClear(Next(c, s, a)) && Next(c, s, a).redundant == s.redundant
  {
    var s' := Next(c, s, a);
    forall u | 0 <= u < |s'.threads| && PastTest(s'.threads[u])
      ensures s'.threads[u].i !in s'.have
    {
      if a.Step? && u != a.t {
        assert !BothPast(s, a.t, u);
      }
    }
  }

  lemma {:induction false} RunKeepsClear(c: Config, s: Sys, actions: seq<Action>)
    requires WellTyped(c, s) && Legal(c, s, actions) && !EverRaces(c, s, actions) && BitsStillClear(s)
    ensures Run(c, s, actions).redundant == s.redundant
    decreases |actions|
  {
    if actions != [] {
      StepKeepsClear(c, s, actions[0]);
      TypesKept(c, s, actions[0]);
      RunKeepsClear(c, Next(c, s, actions[0]), actions[1..]);
    }
  }

  // If no two calls for one chunk are ever past their test together, the counter is exact, and
  // IsComplete says true exactly when every chunk is stored.
  lemma ExactWithoutOverlap(c: Config, s0: Sys, actions: seq<Action>)
    requires Initial(c, s0) && Legal(c, s0, actions) && !EverRaces(c, s0, actions)
    ensures var s := Run(c, s0, actions);
            && s.count == |s.have|
            && (IsComplete(c, s) <==> forall i :: 0 <= i < Count(c) ==> i in s.have)
  {
    InitialInv(c, s0);
    RunKeepsInv(c, s0, actions);
    RunKeepsClear(c, s0, actions);
    var s := Run(c, s0, actions);
    FullExactly(s.have, Count(c));
  }

  // The call will set a bit that is set already, or some call for the same chunk will.
  ghost predicate WillRepeat(s: Sys, t: nat) {
    t < |s.threads| && PastTest(s.threads[t]) && (s.threads[t].i in s.have || exists u :: BothPast(s, t, u))
  }

  // The counter is too high or is going to be.
  ghost predicate Debt(s: Sys) {
    s.redundant > 0 || exists t :: WillRepeat(s, t)
  }

  // Only its own mark ends a call's being past its test.
  lemma StaysPast(c: Config, s: Sys, a: Action, t: nat)
    requires WellTyped(c, s) && Enabled(c, s, a) && !a.DiskError?
    requires t < |s.threads| && PastTest(s.threads[t]) && !(a == Step(t) && s.threads[t].WMark?)
    ensures var s' := Next(c, s, a);
            t < |s'.threads| && PastTest(s'.threads[t]) && s'.threads[t].i == s.threads[t].i && s.have <= s'.have
  {}

  lemma MarkEffect(c: Config, s: Sys, t: nat)
    requires WellTyped(c, s) && t < |s.threads| && s.threads[t].WMark?
    ensures var s' := Next(c, s, Step(t)); var i := s.threads[t].i;
            s'.have == s.have + {i} && (i in s.have ==> s'.redundant > s.redundant)
  {}

  lemma StepKeepsWillRepeat(c: Config, s: Sys, a: Action, t: nat)
    requires WellTyped(c, s) && Enabled(c, s, a) && !a.DiskError? && WillRepeat(s, t)
    ensures Next(c, s, a).redundant > s.redundant || exists v :: WillRepeat(Next(c, s, a), v)
  {
    var s' := Next(c, s, a);
    var marks := a == Step(t) && s.threads[t].WMark?;
    if s.threads[t].i in s.have {
      if marks {
        MarkEffect(c, s, t);
      } else {
        StaysPast(c, s, a, t);
        assert WillRepeat(s', t);
      }
    } else {
      var u: nat :| BothPast(s, t, u);
      if marks {
        MarkEffect(c, s, t);
        StaysPast(c, s, a, u);
        assert WillRepeat(s', u);
      } else {
        StaysPast(c, s, a, t);
        if a == Step(u) && s.threads[u].WMark? {
          MarkEffect(c, s, u);
        } else {
          StaysPast(c, s, a, u);
          assert BothPast(s', t, u);
        }
        assert WillRepeat(s', t);
      }
    }
  }

  lemma RedundantGrows(c: Config, s: Sys, a: Action)
    requires WellTyped(c, s) && Enabled(c, s, a)
    ensures Next(c, s, a).redundant >= s.redundant
  {}

  lemma StepKeepsDebt(c: Config, s: Sys, a: Action)
    requires WellTyped(c, s) && Enabled(c, s, a) && !a.DiskError? && Debt(s)
    ensures Debt(Next(c, s, a))
  {
    RedundantGrows(c, s, a);
    if s.redundant == 0 {
      var t: nat :| WillRepeat(s, t);
      StepKeepsWillRepeat(c, s, a, t);
    }
  }

  lemma {:induction false} RunKeepsDebt(c: Config, s: Sys, actions: seq<Action>)
    requires WellTyped(c, s) && Legal(c, s, actions)
    requires (forall a | a in actions :: !a.DiskError?) && (Debt(s) || EverRaces(c, s, actions))
    ensures Debt(Run(c, s, actions))
    decreases |actions|
  {
    if Racing(s) {
      var t: nat, u: nat :| BothPast(s, t, u);
      assert WillRepeat(s, t);
    }
    if actions != [] {
      assert actions[0] in actions && forall a | a in actions[1..] :: a in actions;
      TypesKept(c, s, actions[0]);
      if Debt(s) {
        StepKeepsDebt(c, s, actions[0]);
      }
      RunKeepsDebt(c, Next(c, s, actions[0]), actions[1..]);
    }
  }

  // Without disk errors, and when no call is between its test and its mark, the counter is exact
  // exactly if no two calls for one chunk were ever past their test together.
  lemma CountExactly(c: Config, s0: Sys, actions: seq<Action>)
    requires Initial(c, s0) && Legal(c, s0, actions) && forall a | a in actions :: !a.DiskError?
    requires forall pc | pc in Run(c, s0, actions).threads :: !PastTest(pc)
    ensures var s := Run(c, s0, actions);
            s.count == |s.have| <==> !EverRaces(c, s0, actions)
  {
    InitialInv(c, s0);
    RunKeepsInv(c, s0, actions);
    if EverRaces(c, s0, actions) {
      RunKeepsDebt(c, s0, actions);
    } else {
      ExactWithoutOverlap(c, s0, actions);
    }
  }

  // ---------------------------------------------------------------- what overlap does

  ghost predicate Reachable(c: Config, s: Sys) {
    exists s0, actions :: Initial(c, s0) && Legal(c, s0, actions) && Run(c, s0, actions) == s
  }

  lemma {:induction false} RunSnoc(c: Config, s: Sys, actions: seq<Action>, a: Action)
    requires WellTyped(c, s) && Legal(c, s, actions)
    requires WellTyped(c, Run(c, s, actions)) && Enabled(c, Run(c, s, actions), a)
    ensures Legal(c, s, actions + [a]) && Run(c, s, actions + [a]) == Next(c, Run(c, s, actions), a)
    decreases |actions|
  {
    if actions == [] {
      assert [a][1..] == [];
      TypesKept(c, s, a);
    } else {
      assert (actions + [a])[1..] == actions[1..] + [a];
      TypesKept(c, s, actions[0]);
      RunSnoc(c, Next(c, s, actions[0]), actions[1..], a);
    }
  }

  lemma Reach(c: Config, s: Sys, a: Action) returns (s': Sys)
    requires WellTyped(c, s) && Reachable(c, s) && Enabled(c, s, a)
    ensures s' == Next(c, s, a) && WellTyped(c, s') && Reachable(c, s')
  {
    var s0, actions :| Initial(c, s0) && Legal(c, s0, actions) && Run(c, s0, actions) == s;
    RunSnoc(c, s0, actions, a);
    TypesKept(c, s, a);
    s' := Next(c, s, a);
    assert Initial(c, s0) && Legal(c, s0, actions + [a]) && Run(c, s0, actions + [a]) == s';
  }

  // Two chunks of one byte each.
  function TwoChunks(sha: Manifests.Digest): (c: Config)
    ensures ConfigOk(c) && Count(c) == 2 && Chunk(c, 0) == [0] && Chunk(c, 1) == [1]
  {
    Config(sha, Manifests.ManifestOf(sha, [], [0, 1], 1), [0, 1])
  }

  // Two correct copies of chunk 0 arrive together and both pass the HasChunk test ...
  lemma TwoCopies(sha: Manifests.Digest) returns (s: Sys)
    ensures var c := TwoChunks(sha);
            && WellTyped(c, s) && Reachable(c, s)
            && s == Sys([9, 9], {}, 0, map[], {}, 0, None, {}, 0, [WWriting(0, [0], 0), WWriting(0, [0], 0)])
  {
    var c := TwoChunks(sha);
    s := Sys([9, 9], {}, 0, map[], {}, 0, None, {}, 0, []);
    assert Initial(c, s) && Legal(c, s, []) && Run(c, s, []) == s;
    s := Reach(c, s, Spawn(WCheck(0, [0])));
    s := Reach(c, s, Spawn(WCheck(0, [0])));
    s := Reach(c, s, Step(0));
    s := Reach(c, s, Step(1));
    assert s.threads == [WWriting(0, [0], 0), WWriting(0, [0], 0)];
  }

  // ... and the counter says that both chunks are stored while chunk 1 is still missing.
  lemma CompleteTooEarly(sha: Manifests.Digest) returns (s: Sys)
    ensures var c := TwoChunks(sha);
            && WellTyped(c, s) && Reachable(c, s) && IsComplete(c, s) && 1 !in s.have
            && s.threads == [WSignal(0), WSignal(0)] && s.have == {0} && s.lock == None
  {
    var c := TwoChunks(sha);
    s := TwoCopies(sha);
    s := Reach(c, s, Step(0));
    s := Reach(c, s, Step(1));
    s := Reach(c, s, Step(0));
    s := Reach(c, s, Step(1));
    assert s.threads == [WMark(0), WMark(0)];
    s := Reach(c, s, Step(0));
    s := Reach(c, s, Step(1));
  }

  // From there, storing chunk 1 too makes the counter overshoot: every chunk is stored, and
  // IsComplete is false.
  lemma NeverCompleteAgain(sha: Manifests.Digest) returns (s: Sys)
    ensures var c := TwoChunks(sha);
            WellTyped(c, s) && Reachable(c, s) && s.have == {0, 1} && !IsComplete(c, s)
  {
    var c := TwoChunks(sha);
    s := CompleteTooEarly(sha);
    s := Reach(c, s, Spawn(WCheck(1, [1])));
    s := Reach(c, s, Step(2));
    s := Reach(c, s, Step(2));
    s := Reach(c, s, Step(2));
    s := Reach(c, s, Step(2));
  }
}
