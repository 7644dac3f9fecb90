/** What every interleaving of the store protocol keeps: no lost wake-up, no double close, stored
    regions and finished reads equal to the original file, demanded chunks urgent until stored,
    and how far the chunk counter can drift from the bitfield. */
module StoreSafety {
  import opened Bytes
  import opened Chunker
  import opened Manifests
  import opened StoreProtocol

  // The file shows the original's bytes at the first k positions of chunk i.
  ghost predicate GoodTo(c: Config, file: seq<byte>, i: int, k: int) {
    && |file| == |c.orig| && 0 <= Start(c, i)
    && forall j :: Start(c, i) <= j < Start(c, i) + k && j < |file| ==> file[j] == c.orig[j]
  }

  predicate Asked(s: Sys, i: int) {
    i in s.have || i in s.urgent
  }

  predicate AllAsked(s: Sys, lo: int, hi: int) {
    forall j :: lo <= j < hi ==> Asked(s, j)
  }

  predicate AllStored(s: Sys, lo: int, hi: int) {
    forall j :: lo <= j < hi ==> j in s.have
  }

  // A read waiting for chunk i: it has asked for all its chunks and seen those before i.
  predicate WaitInv(c: Config, s: Sys, r: Req, i: int)
    requires ConfigOk(c) && ReqOk(c, r)
  {
    AllAsked(s, First(c, r), Last(c, r) + 1) && AllStored(s, First(c, r), i)
  }

  // What is known of a call at each point.
  ghost predicate PcInv(c: Config, s: Sys, pc: Pc)
    requires ConfigOk(c) && PcOk(c, pc)
  {
    match pc
    case WCheck(_, _) => true
    case WWriting(i, data, k) => GoodTo(c, s.file, i, k)
    case WMark(i) => GoodTo(c, s.file, i, c.d)
    case WSignal(i) => i in s.have
    case WClose(i) => i in s.have
    case WNotify(i) => i in s.have
    case WDone => true
    case RDemand(r, i) => AllAsked(s, First(c, r), i)
    case RDemand2(r, i) => AllAsked(s, First(c, r), i)
    case RInsert(r, i) => AllAsked(s, First(c, r), i)
    case RWait(r, i) => WaitInv(c, s, r, i)
    case RLock(r, i) => WaitInv(c, s, r, i)
    case RRecheck(r, i) => WaitInv(c, s, r, i)
    case RRegister(r, i) => WaitInv(c, s, r, i)
    case RBlocked(r, i, ch) =>
      // The channel is closed, or still registered.
      WaitInv(c, s, r, i) && ((ch in s.closed && i in s.have) || (i in s.waiters && s.waiters[i] == ch))
    case RRead(r, buf) =>
      AllStored(s, First(c, r), Last(c, r) + 1) && buf == c.orig[r.off..r.off + |buf|]
    case RDone(r, buf) => buf == c.orig[r.off..r.off + r.len]
  }

  predicate HoldsLock(pc: Pc) {
    pc.RRecheck? || pc.RRegister? || pc.WClose?
  }

  predicate WillSignal(pc: Pc, i: int) {
    pc == WSignal(i) || pc == WClose(i)
  }

  // Some writer of chunk i is between its bit-set and its signal.
  ghost predicate SignalPending(s: Sys, i: int) {
    exists t :: 0 <= t < |s.threads| && WillSignal(s.threads[t], i)
  }

  ghost predicate ChannelsOk(s: Sys) {
    && (forall i | i in s.waiters :: s.waiters[i] < s.nextChan && s.waiters[i] !in s.closed)
    && (forall ch | ch in s.closed :: ch < s.nextChan)
    && (forall i, j | i in s.waiters && j in s.waiters && i != j :: s.waiters[i] != s.waiters[j])
  }

  ghost predicate Inv(c: Config, s: Sys) {
    && WellTyped(c, s)
    && (forall i | i in s.have :: 0 <= i < Count(c) && GoodTo(c, s.file, i, c.d))
    && ChannelsOk(s)
    && (forall t | 0 <= t < |s.threads| :: PcInv(c, s, s.threads[t]))
    && (forall t | 0 <= t < |s.threads| :: HoldsLock(s.threads[t]) <==> s.lock == Some(t))
    && (s.lock.Some? ==> s.lock.value < |s.threads|)
    && (forall i | i in s.waiters && i in s.have :: SignalPending(s, i))
    && (forall t | 0 <= t < |s.threads| && s.threads[t].RRegister? && s.threads[t].i in s.have ::
          SignalPending(s, s.threads[t].i))
    && s.count == |s.have| + s.redundant
  }

  // ---------------------------------------------------------------- stability

  // What a step never takes away from the other calls.
  ghost predicate Evolves(c: Config, s: Sys, s': Sys) {
    && |s'.file| == |s.file| == |c.orig|
    && (forall j :: 0 <= j < |s.file| && s.file[j] == c.orig[j] ==> s'.file[j] == c.orig[j])
    && s.have <= s'.have && s.closed <= s'.closed
    && (forall i | i in s.urgent :: Asked(s', i))
    && (forall i | i in s.waiters ::
          (i in s'.waiters && s'.waiters[i] == s.waiters[i]) || (s.waiters[i] in s'.closed && i in s'.have))
  }

  lemma AskedStable(c: Config, s: Sys, s': Sys, lo: int, hi: int)
    requires Evolves(c, s, s') && AllAsked(s, lo, hi)
    ensures AllAsked(s', lo, hi)
  {
    forall j | lo <= j < hi
      ensures Asked(s', j)
    {
      assert Asked(s, j);
    }
  }

  lemma PcInvStable(c: Config, s: Sys, s': Sys, pc: Pc)
    requires ConfigOk(c) && PcOk(c, pc) && Evolves(c, s, s') && PcInv(c, s, pc)
    ensures PcInv(c, s', pc)
  {
    if pc.RDemand? || pc.RDemand2? || pc.RInsert? {
      AskedStable(c, s, s', First(c, pc.r), pc.i);
    } else if pc.RWait? || pc.RLock? || pc.RRecheck? || pc.RRegister? || pc.RBlocked? {
      AskedStable(c, s, s', First(c, pc.r), Last(c, pc.r) + 1);
    }
  }

  lemma WriteEvolves(c: Config, s: Sys, i: int, data: seq<byte>, k: nat)
    requires WellTyped(c, s) && PcOk(c, WWriting(i, data, k)) && k < |data|
    ensures var file := s.file[Start(c, i) + k := data[k]];
            && Evolves(c, s, s.(file := file))
            && (GoodTo(c, s.file, i, k) ==> GoodTo(c, file, i, k + 1))
  {}

  lemma EffectEvolves(c: Config, s: Sys, t: nat, pc: Pc)
    requires WellTyped(c, s) && PcOk(c, pc) && CanStep(s, pc) && PcInv(c, s, pc)
    ensures Evolves(c, s, Effect(c, s, t, pc))
  {
    match pc {
      case WWriting(i, data, k) => if k < |data| { WriteEvolves(c, s, i, data, k); }
      case _ =>
    }
  }

  lemma AfterWaitInv(c: Config, s: Sys, r: Req, i: int)
    requires ConfigOk(c) && ReqOk(c, r) && First(c, r) <= i <= Last(c, r)
    requires WaitInv(c, s, r, i) && i in s.have
    ensures PcOk(c, AfterWait(c, r, i)) && PcInv(c, s, AfterWait(c, r, i))
  {}

  lemma AfterDemandInv(c: Config, s: Sys, r: Req, i: int)
    requires ConfigOk(c) && ReqOk(c, r) && First(c, r) <= i <= Last(c, r)
    requires AllAsked(s, First(c, r), i) && Asked(s, i)
    ensures PcOk(c, AfterDemand(c, r, i)) && PcInv(c, s, AfterDemand(c, r, i))
  {
    FirstBeforeLast(c, r);
  }

  // A byte inside the range read, with all covering chunks stored, is the original's.
  lemma StoredByte(c: Config, s: Sys, r: Req, j: nat)
    requires Inv(c, s) && ReqOk(c, r) && r.off <= j < r.off + r.len
    requires AllStored(s, First(c, r), Last(c, r) + 1)
    ensures s.file[j] == c.orig[j]
  {
    DivMono(r.off, j, c.d);
    DivMono(j, r.off + r.len - 1, c.d);
    CoveringChunk(|c.orig|, c.d, j);
    assert GoodTo(c, s.file, j / c.d, c.d);
  }

  lemma ReadOneMore(c: Config, s: Sys, r: Req, buf: seq<byte>)
    requires Inv(c, s) && PcOk(c, RRead(r, buf)) && PcInv(c, s, RRead(r, buf)) && |buf| < r.len
    ensures var buf' := buf + [s.file[r.off + |buf|]];
            PcOk(c, RRead(r, buf')) && PcInv(c, s, RRead(r, buf'))
  {
    StoredByte(c, s, r, r.off + |buf|);
    assert c.orig[r.off..r.off + |buf| + 1] == c.orig[r.off..r.off + |buf|] + [c.orig[r.off + |buf|]];
  }

  lemma WriterMoves(c: Config, s: Sys, t: nat, pc: Pc)
    requires Inv(c, s) && PcOk(c, pc) && CanStep(s, pc) && PcInv(c, s, pc)
    requires Writer(pc)
    ensures PcOk(c, NextPc(c, s, pc)) && PcInv(c, Effect(c, s, t, pc), NextPc(c, s, pc))
  {
    NextPcOk(c, s, pc);
    match pc {
      case WCheck(i, data) => if 0 <= i { MulMono(0, i, c.d); }
      case WWriting(i, data, k) => if k < |data| { WriteEvolves(c, s, i, data, k); }
      case _ =>
    }
  }

  lemma ReaderMoves(c: Config, s: Sys, t: nat, pc: Pc)
    requires Inv(c, s) && PcOk(c, pc) && CanStep(s, pc) && PcInv(c, s, pc)
    requires !Writer(pc)
    ensures PcOk(c, NextPc(c, s, pc)) && PcInv(c, Effect(c, s, t, pc), NextPc(c, s, pc))
  {
    NextPcOk(c, s, pc);
    var s' := Effect(c, s, t, pc);
    EffectEvolves(c, s, t, pc);
    PcInvStable(c, s, s', pc);
    match pc {
      case RDemand(r, i) => if i in s.have { AfterDemandInv(c, s, r, i); }
      case RDemand2(r, i) => if i in s.have { AfterDemandInv(c, s, r, i); }
      case RInsert(r, i) => AfterDemandInv(c, s', r, i);
      case RWait(r, i) => if i in s.have { AfterWaitInv(c, s, r, i); }
      case RRecheck(r, i) => if i in s.have { AfterWaitInv(c, s', r, i); }
      case RBlocked(r, i, ch) => AfterWaitInv(c, s, r, i);
      case RRead(r, buf) => if |buf| < r.len { ReadOneMore(c, s, r, buf); }
      case _ =>
    }
  }

  // ---------------------------------------------------------------- one step

  lemma ChannelsKept(c: Config, s: Sys, t: nat)
    requires Inv(c, s) && Enabled(c, s, Step(t))
    ensures ChannelsOk(Next(c, s, Step(t)))
  {}

  lemma LockKept(c: Config, s: Sys, t: nat)
    requires Inv(c, s) && Enabled(c, s, Step(t))
    ensures var s' := Next(c, s, Step(t));
            && (forall u | 0 <= u < |s'.threads| :: HoldsLock(s'.threads[u]) <==> s'.lock == Some(u))
            && (s'.lock.Some? ==> s'.lock.value < |s'.threads|)
  {
    var s' := Next(c, s, Step(t));
    assert HoldsLock(s.threads[t]) <==> s.lock == Some(t);
    forall u | 0 <= u < |s'.threads|
      ensures HoldsLock(s'.threads[u]) <==> s'.lock == Some(u)
    {
      assert HoldsLock(s.threads[u]) <==> s.lock == Some(u);
    }
  }

  // Only the writer that closes the channel stops owing the signal.
  lemma PendingKept(c: Config, s: Sys, t: nat, i: int)
    requires Inv(c, s) && Enabled(c, s, Step(t)) && SignalPending(s, i) && s.threads[t] != WClose(i)
    ensures SignalPending(Next(c, s, Step(t)), i)
  {
    var u :| 0 <= u < |s.threads| && WillSignal(s.threads[u], i);
    assert WillSignal(Next(c, s, Step(t)).threads[u], i);
  }

  lemma WaitersPending(c: Config, s: Sys, t: nat, i: int)
    requires Inv(c, s) && Enabled(c, s, Step(t))
    requires var s' := Next(c, s, Step(t)); i in s'.waiters && i in s'.have
    ensures SignalPending(Next(c, s, Step(t)), i)
  {
    var pc := s.threads[t];
    var s' := Next(c, s, Step(t));
    if pc == WMark(i) {
      assert WillSignal(s'.threads[t], i);
    } else {
      assert i in s.have;
      assert pc != WClose(i);
      assert i in s.waiters || (pc.RRegister? && pc.i == i);
      PendingKept(c, s, t, i);
    }
  }

  lemma RegistersPending(c: Config, s: Sys, t: nat, u: nat)
    requires Inv(c, s) && Enabled(c, s, Step(t)) && u < |s.threads|
    requires var s' := Next(c, s, Step(t)); s'.threads[u].RRegister? && s'.threads[u].i in s'.have
    ensures SignalPending(Next(c, s, Step(t)), Next(c, s, Step(t)).threads[u].i)
  {
    var pc := s.threads[t];
    var s' := Next(c, s, Step(t));
    var i := s'.threads[u].i;
    assert u != t;
    if pc == WMark(i) {
      assert WillSignal(s'.threads[t], i);
    } else {
      assert HoldsLock(s.threads[u]) && HoldsLock(s.threads[t]) <==> s.lock == Some(t);
      PendingKept(c, s, t, i);
    }
  }

  lemma RegionsKept(c: Config, s: Sys, t: nat, i: int)
    requires Inv(c, s) && Enabled(c, s, Step(t)) && i in Next(c, s, Step(t)).have
    ensures 0 <= i < Count(c) && GoodTo(c, Next(c, s, Step(t)).file, i, c.d)
  {
    EffectEvolves(c, s, t, s.threads[t]);
    if i !in s.have {
      assert s.threads[t] == WMark(i);
    }
  }

  lemma CallsKept(c: Config, s: Sys, t: nat)
    requires Inv(c, s) && Enabled(c, s, Step(t))
    ensures WellTyped(c, Next(c, s, Step(t)))
    ensures var s' := Next(c, s, Step(t)); forall u | 0 <= u < |s'.threads| :: PcInv(c, s', s'.threads[u])
  {
    TypesKept(c, s, Step(t));
    var pc := s.threads[t];
    var e := Effect(c, s, t, pc);
    var s' := Next(c, s, Step(t));
    EffectEvolves(c, s, t, pc);
    assert Evolves(c, s, s') && Evolves(c, e, s');
    forall u | 0 <= u < |s'.threads|
      ensures PcInv(c, s', s'.threads[u])
    {
      if u == t {
        if Writer(pc) {
          WriterMoves(c, s, t, pc);
        } else {
          ReaderMoves(c, s, t, pc);
        }
        PcInvStable(c, e, s', NextPc(c, s, pc));
      } else {
        PcInvStable(c, s, s', s.threads[u]);
      }
    }
  }

  lemma EffectCounts(c: Config, s: Sys, t: nat, pc: Pc)
    requires ConfigOk(c) && |s.file| == c.m.fileSize && PcOk(c, pc) && CanStep(s, pc)
    requires s.count == |s.have| + s.redundant
    ensures var r := Effect(c, s, t, pc); r.count == |r.have| + r.redundant
  {
    if pc.WMark? && pc.i in s.have {
      assert s.have + {pc.i} == s.have;
    }
  }

  lemma CountKept(c: Config, s: Sys, t: nat)
    requires Inv(c, s) && Enabled(c, s, Step(t))
    ensures var s' := Next(c, s, Step(t)); s'.count == |s'.have| + s'.redundant
  {
    EffectCounts(c, s, t, s.threads[t]);
  }

  lemma StepKeepsInv(c: Config, s: Sys, t: nat)
    requires Inv(c, s) && Enabled(c, s, Step(t))
    ensures Inv(c, Next(c, s, Step(t)))
  {
    var s' := Next(c, s, Step(t));
    CallsKept(c, s, t);
    ChannelsKept(c, s, t);
    LockKept(c, s, t);
    CountKept(c, s, t);
    forall i | i in s'.have
      ensures 0 <= i < Count(c) && GoodTo(c, s'.file, i, c.d)
    {
      RegionsKept(c, s, t, i);
    }
    forall i | i in s'.waiters && i in s'.have
      ensures SignalPending(s', i)
    {
      WaitersPending(c, s, t, i);
    }
    forall u | 0 <= u < |s'.threads| && s'.threads[u].RRegister? && s'.threads[u].i in s'.have
      ensures SignalPending(s', s'.threads[u].i)
    {
      RegistersPending(c, s, t, u);
    }
  }

  // A new call, or one that gives up on a disk error, disturbs nobody.
  lemma OtherKeepsInv(c: Config, s: Sys, a: Action)
    requires Inv(c, s) && Enabled(c, s, a) && !a.Step?
    ensures Inv(c, Next(c, s, a))
  {
    TypesKept(c, s, a);
    var s' := Next(c, s, a);
    assert Evolves(c, s, s');
    forall u | 0 <= u < |s'.threads|
      ensures PcInv(c, s', s'.threads[u]) && (HoldsLock(s'.threads[u]) <==> s'.lock == Some(u))
    {
      if u < |s.threads| && s'.threads[u] == s.threads[u] {
        PcInvStable(c, s, s', s.threads[u]);
      }
      if u < |s.threads| {
        assert HoldsLock(s.threads[u]) <==> s.lock == Some(u);
      }
    }
    forall i | SignalPending(s, i)
      ensures SignalPending(s', i)
    {
      var u :| 0 <= u < |s.threads| && WillSignal(s.threads[u], i);
      assert WillSignal(s'.threads[u], i);
    }
  }

  // ---------------------------------------------------------------- every run

  lemma InitialInv(c: Config, s: Sys)
    requires Initial(c, s)
    ensures Inv(c, s)
  {}

  lemma {:induction false} RunKeepsInv(c: Config, s: Sys, actions: seq<Action>)
    requires Inv(c, s) && Legal(c, s, actions)
    ensures Inv(c, Run(c, s, actions))
    decreases |actions|
  {
    if actions != [] {
      if actions[0].Step? {
        StepKeepsInv(c, s, actions[0].t);
      } else {
        OtherKeepsInv(c, s, actions[0]);
      }
      RunKeepsInv(c, Next(c, s, actions[0]), actions[1..]);
    }
  }

  // No lost wake-up. In every reachable state each blocked read's channel is closed or still
  // registered; a registered chunk that is stored has a writer about to signal it; and no
  // channel that is about to be closed has been closed before.
  lemma NoLostWakeup(c: Config, s0: Sys, actions: seq<Action>)
    requires Initial(c, s0) && Legal(c, s0, actions)
    ensures var s := Run(c, s0, actions);
            && (forall t | 0 <= t < |s.threads| && s.threads[t].RBlocked? ::
                  s.threads[t].ch in s.closed
                  || (s.threads[t].i in s.waiters && s.waiters[s.threads[t].i] == s.threads[t].ch))
            && (forall i | i in s.waiters && i in s.have :: SignalPending(s, i))
            && (forall i | i in s.waiters :: s.waiters[i] !in s.closed)
  {
    InitialInv(c, s0);
    RunKeepsInv(c, s0, actions);
    var s := Run(c, s0, actions);
    forall t | 0 <= t < |s.threads| && s.threads[t].RBlocked?
      ensures s.threads[t].ch in s.closed
              || (s.threads[t].i in s.waiters && s.waiters[s.threads[t].i] == s.threads[t].ch)
    {
      assert PcInv(c, s, s.threads[t]);
    }
  }

  lemma LockHolderCanStep(c: Config, s: Sys)
    requires Inv(c, s)
    ensures s.lock.Some? ==> Enabled(c, s, Step(s.lock.value))
  {
    if s.lock.Some? {
      assert HoldsLock(s.threads[s.lock.value]);
    }
  }

  lemma PendingWriterCanStep(c: Config, s: Sys, i: int)
    requires Inv(c, s) && SignalPending(s, i)
    ensures s.lock.Some? || exists t :: Enabled(c, s, Step(t))
  {
    var t :| 0 <= t < |s.threads| && WillSignal(s.threads[t], i);
    if s.lock.None? {
      assert Enabled(c, s, Step(t));
    }
  }

  // When no call can take a step, every call has finished except reads blocked on a chunk that
  // nobody has stored; each of those chunks is in the urgent set, the lock is free and no
  // registered chunk is stored.
  lemma OnlyMissingChunksBlock(c: Config, s0: Sys, actions: seq<Action>)
    requires Initial(c, s0) && Legal(c, s0, actions)
    requires forall t :: !Enabled(c, Run(c, s0, actions), Step(t))
    ensures var s := Run(c, s0, actions);
            && s.lock == None
            && (forall t | 0 <= t < |s.threads| ::
                  var pc := s.threads[t];
                  pc.WDone? || pc.RDone? || (pc.RBlocked? && pc.i !in s.have && pc.i in s.urgent))
            && (forall i | i in s.waiters :: i !in s.have)
  {
    InitialInv(c, s0);
    RunKeepsInv(c, s0, actions);
    var s := Run(c, s0, actions);
    LockHolderCanStep(c, s);
    forall i | SignalPending(s, i)
      ensures s.lock.Some? || exists t :: Enabled(c, s, Step(t))
    {
      PendingWriterCanStep(c, s, i);
    }
    forall t | 0 <= t < |s.threads|
      ensures var pc := s.threads[t];
              pc.WDone? || pc.RDone? || (pc.RBlocked? && pc.i !in s.have && pc.i in s.urgent)
    {
      assert !Enabled(c, s, Step(t));
      assert PcInv(c, s, s.threads[t]);
      if s.threads[t].RBlocked? {
        assert Asked(s, s.threads[t].i);
      }
    }
  }

  // Demanded chunks stay urgent until stored, whatever else happens: a waiting read's chunks
  // are all stored or urgent.
  lemma DemandedUntilStored(c: Config, s0: Sys, actions: seq<Action>, t: nat, j: int)
    requires Initial(c, s0) && Legal(c, s0, actions)
    requires var s := Run(c, s0, actions);
             && t < |s.threads|
             && (s.threads[t].RWait? || s.threads[t].RLock? || s.threads[t].RRecheck?
                 || s.threads[t].RRegister? || s.threads[t].RBlocked?)
             && ReqOk(c, s.threads[t].r) && First(c, s.threads[t].r) <= j <= Last(c, s.threads[t].r)
    ensures j in Run(c, s0, actions).have || j in Run(c, s0, actions).urgent
  {
    InitialInv(c, s0);
    RunKeepsInv(c, s0, actions);
    var s := Run(c, s0, actions);
    assert PcInv(c, s, s.threads[t]);
    assert Asked(s, j);
  }

  lemma SameSlice(a: seq<byte>, b: seq<byte>, lo: nat, hi: nat)
    requires lo <= hi <= |a| == |b| && forall j | lo <= j < hi :: a[j] == b[j]
    ensures a[lo..hi] == b[lo..hi]
  {}

  lemma StoredRegion(c: Config, file: seq<byte>, i: int, lo: nat, chunk: seq<byte>)
    requires GoodTo(c, file, i, c.d) && lo == Start(c, i)
    requires |chunk| <= c.d && lo + |chunk| <= |c.orig| && chunk == c.orig[lo..lo + |chunk|]
    ensures file[lo..lo + |chunk|] == chunk
  {
    SameSlice(file, c.orig, lo, lo + |chunk|);
  }

  lemma FinishedRead(c: Config, s: Sys, t: nat)
    requires Inv(c, s) && t < |s.threads| && s.threads[t].RDone?
    ensures var r := s.threads[t].r;
            r.off + r.len <= |c.orig| && s.threads[t].buf == c.orig[r.off..r.off + r.len]
  {
    assert PcOk(c, s.threads[t]) && PcInv(c, s, s.threads[t]);
  }

  // What the player reads is the original file: in every reachable state a finished read holds
  // exactly the bytes asked for.
  lemma ReadsAreOriginal(c: Config, s0: Sys, actions: seq<Action>, t: nat)
    requires Initial(c, s0) && Legal(c, s0, actions)
    requires t < |Run(c, s0, actions).threads| && Run(c, s0, actions).threads[t].RDone?
    ensures var pc := Run(c, s0, actions).threads[t];
            pc.r.off + pc.r.len <= |c.orig| && pc.buf == c.orig[pc.r.off..pc.r.off + pc.r.len]
  {
    InitialInv(c, s0);
    RunKeepsInv(c, s0, actions);
    FinishedRead(c, Run(c, s0, actions), t);
  }

  // A set bit means the region of the sparse file is the original's, whatever was delivered,
  // however often and in whatever order.
  lemma StoredIsOriginal(c: Config, s0: Sys, actions: seq<Action>, i: int)
    requires Initial(c, s0) && Legal(c, s0, actions) && i in Run(c, s0, actions).have
    ensures 0 <= i < Count(c)
    ensures var s := Run(c, s0, actions);
            Start(c, i) + |Chunk(c, i)| <= |s.file|
            && s.file[Start(c, i)..Start(c, i) + |Chunk(c, i)|] == Chunk(c, i)
  {
    InitialInv(c, s0);
    RunKeepsInv(c, s0, actions);
    StoredRegion(c, Run(c, s0, actions).file, i, Start(c, i), Chunk(c, i));
  }
}
