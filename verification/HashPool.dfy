/** The parallel manifest builder (internal/chunk/manifest.go:61-126): a feeder, a number of
    workers and a collector connected by two bounded channels, in any interleaving. */
module HashPool {
  import opened Bytes
  import opened Manifests

  // What a worker sends: the chunk's metadata, or None for a read error.
  datatype HashResult = HashResult(index: nat, meta: Option<ChunkMeta>)

  datatype Worker = Idle | Holding(index: nat) | Reporting(result: HashResult) | Exited

  // metas[i] is what hashing chunk i gives.
  datatype Config = Config(metas: seq<ChunkMeta>, capacity: nat)

  datatype Pool = Pool(
    fed: nat,                    // the feeder has sent 0..fed
    closed: bool,                // the jobs channel is closed
    jobs: seq<nat>,
    workers: seq<Worker>,
    results: seq<HashResult>,
    collected: seq<HashResult>)  // in order of collection

  datatype Action = Feed | Close | Take(w: nat) | Read(w: nat, ok: bool) | Report(w: nat) | Exit(w: nat) | Collect

  predicate Enabled(c: Config, s: Pool, a: Action) {
    match a
    case Feed => s.fed < |c.metas| && |s.jobs| < c.capacity
    case Close => s.fed == |c.metas| && !s.closed
    case Take(w) => w < |s.workers| && s.workers[w].Idle? && s.jobs != []
    case Read(w, _) => w < |s.workers| && s.workers[w].Holding? && s.workers[w].index < |c.metas|
    case Report(w) => w < |s.workers| && s.workers[w].Reporting? && |s.results| < c.capacity
    case Exit(w) => w < |s.workers| && s.workers[w].Idle? && s.closed && s.jobs == []
    case Collect => s.results != [] && |s.collected| < |c.metas|
  }

  function Next(c: Config, s: Pool, a: Action): Pool
    requires Enabled(c, s, a)
  {
    match a
    case Feed => s.(fed := s.fed + 1, jobs := s.jobs + [s.fed])
    case Close => s.(closed := true)
    case Take(w) => s.(jobs := s.jobs[1..], workers := s.workers[w := Holding(s.jobs[0])])
    case Read(w, ok) =>
      var i := s.workers[w].index;
      s.(workers := s.workers[w := Reporting(HashResult(i, if ok then Some(c.metas[i]) else None))])
    case Report(w) => s.(results := s.results + [s.workers[w].result], workers := s.workers[w := Idle])
    case Exit(w) => s.(workers := s.workers[w := Exited])
    case Collect => s.(results := s.results[1..], collected := s.collected + [s.results[0]])
  }

  // One worker per processor, but not more than chunks and at least one; both channels hold
  // twice as many entries as there are workers.
  ghost predicate Initial(c: Config, s: Pool) {
    && |s.workers| >= 1 && c.capacity == 2 * |s.workers|
    && s == Pool(0, false, [], seq(|s.workers|, _ => Idle), [], [])
  }

  predicate Legal(c: Config, s: Pool, actions: seq<Action>)
    decreases |actions|
  {
    actions == [] || (Enabled(c, s, actions[0]) && Legal(c, Next(c, s, actions[0]), actions[1..]))
  }

  function Run(c: Config, s: Pool, actions: seq<Action>): Pool
    requires Legal(c, s, actions)
    decreases |actions|
  {
    if actions == [] then s else Run(c, Next(c, s, actions[0]), actions[1..])
  }

  // ---------------------------------------------------------------- where each index is

  // 1 if the worker has index i, else 0.
  function Has(w: Worker, i: nat): nat {
    match w
    case Holding(j) => if i == j then 1 else 0
    case Reporting(r) => if i == r.index then 1 else 0
    case _ => 0
  }

  function HeldCount(ws: seq<Worker>, i: nat): nat {
    if ws == [] then 0 else Has(ws[0], i) + HeldCount(ws[1..], i)
  }

  function QueuedCount(jobs: seq<nat>, i: nat): nat {
    if jobs == [] then 0 else (if jobs[0] == i then 1 else 0) + QueuedCount(jobs[1..], i)
  }

  function ResultCount(rs: seq<HashResult>, i: nat): nat {
    if rs == [] then 0 else (if rs[0].index == i then 1 else 0) + ResultCount(rs[1..], i)
  }

  // How often index i occurs: unfed, queued, held by a worker, reported or collected.
  function Places(c: Config, s: Pool, i: nat): nat {
    (if s.fed <= i < |c.metas| then 1 else 0) + QueuedCount(s.jobs, i) + HeldCount(s.workers, i)
    + ResultCount(s.results, i) + ResultCount(s.collected, i)
  }

  function Busy(ws: seq<Worker>): nat {
    if ws == [] then 0 else (if ws[0].Holding? || ws[0].Reporting? then 1 else 0) + Busy(ws[1..])
  }

  // How many indices there are in all.
  function Total(c: Config, s: Pool): int {
    (|c.metas| - s.fed) + |s.jobs| + Busy(s.workers) + |s.results| + |s.collected|
  }

  lemma {:induction false} HeldUpdate(ws: seq<Worker>, w: nat, x: Worker, i: nat)
    requires w < |ws|
    ensures HeldCount(ws[w := x], i) == HeldCount(ws, i) - Has(ws[w], i) + Has(x, i)
  {
    if w == 0 {
      assert ws[0 := x][1..] == ws[1..];
    } else {
      assert ws[w := x][1..] == ws[1..][w - 1 := x];
      HeldUpdate(ws[1..], w - 1, x, i);
    }
  }

  lemma {:induction false} BusyUpdate(ws: seq<Worker>, w: nat, x: Worker)
    requires w < |ws|
    ensures Busy(ws[w := x]) == Busy(ws) - Busy([ws[w]]) + Busy([x])
  {
    if w == 0 {
      assert ws[0 := x][1..] == ws[1..];
    } else {
      assert ws[w := x][1..] == ws[1..][w - 1 := x];
      BusyUpdate(ws[1..], w - 1, x);
    }
  }

  lemma {:induction false} QueuedSnoc(jobs: seq<nat>, j: nat, i: nat)
    ensures QueuedCount(jobs + [j], i) == QueuedCount(jobs, i) + if i == j then 1 else 0
  {
    if jobs != [] {
      assert (jobs + [j])[1..] == jobs[1..] + [j];
      QueuedSnoc(jobs[1..], j, i);
    }
  }

  lemma {:induction false} ResultSnoc(rs: seq<HashResult>, r: HashResult, i: nat)
    ensures ResultCount(rs + [r], i) == ResultCount(rs, i) + if i == r.index then 1 else 0
  {
    if rs != [] {
      assert (rs + [r])[1..] == rs[1..] + [r];
      ResultSnoc(rs[1..], r, i);
    }
  }

  // ---------------------------------------------------------------- the invariant

  predicate Honest(c: Config, r: HashResult) {
    r.index < |c.metas| && (r.meta.Some? ==> r.meta.value == c.metas[r.index])
  }

  predicate WorkerOk(c: Config, s: Pool, w: Worker) {
    match w
    case Holding(i) => i < |c.metas|
    case Reporting(r) => Honest(c, r)
    case Exited => s.closed && s.jobs == []
    case Idle => true
  }

  ghost predicate Inv(c: Config, s: Pool) {
    && s.fed <= |c.metas| && |s.jobs| <= c.capacity && |s.results| <= c.capacity
    && |s.workers| >= 1 && c.capacity == 2 * |s.workers|
    && (s.closed ==> s.fed == |c.metas|)
    && (forall i | i in s.jobs :: i < |c.metas|)
    && (forall w | w in s.workers :: WorkerOk(c, s, w))
    && (forall r | r in s.results :: Honest(c, r))
    && (forall r | r in s.collected :: Honest(c, r))
    // Conservation: no index is lost and none is duplicated.
    && (forall i: nat :: Places(c, s, i) == if i < |c.metas| then 1 else 0)
    && Total(c, s) == |c.metas|
  }

  lemma {:induction false} AllIdle(n: nat, i: nat)
    ensures HeldCount(seq(n, _ => Idle), i) == 0 && Busy(seq(n, _ => Idle)) == 0 && Weights(seq(n, _ => Idle)) == n
  {
    if n > 0 {
      assert seq(n, _ => Idle)[1..] == seq(n - 1, _ => Idle);
      AllIdle(n - 1, i);
    }
  }

  lemma InitialInv(c: Config, s: Pool)
    requires Initial(c, s)
    ensures Inv(c, s)
  {
    AllIdle(|s.workers|, 0);
    forall i: nat
      ensures HeldCount(s.workers, i) == 0
    {
      AllIdle(|s.workers|, i);
    }
  }

  // Every step moves one index from one place to the next, or none.
  lemma StepConserves(c: Config, s: Pool, a: Action, i: nat)
    requires Enabled(c, s, a)
    ensures Places(c, Next(c, s, a), i) == Places(c, s, i)
    ensures Total(c, Next(c, s, a)) == Total(c, s)
  {
    var t := Next(c, s, a);
    match a {
      case Feed => QueuedSnoc(s.jobs, s.fed, i);
      case Close =>
      case Take(w) =>
        HeldUpdate(s.workers, w, t.workers[w], i);
        BusyUpdate(s.workers, w, t.workers[w]);
      case Read(w, ok) =>
        HeldUpdate(s.workers, w, t.workers[w], i);
        BusyUpdate(s.workers, w, t.workers[w]);
      case Report(w) =>
        HeldUpdate(s.workers, w, Idle, i);
        BusyUpdate(s.workers, w, Idle);
        ResultSnoc(s.results, s.workers[w].result, i);
      case Exit(w) =>
        HeldUpdate(s.workers, w, Exited, i);
        BusyUpdate(s.workers, w, Exited);
      case Collect =>
        ResultSnoc(s.collected, s.results[0], i);
    }
  }

  lemma StepKeepsWorkers(c: Config, s: Pool, a: Action)
    requires Inv(c, s) && Enabled(c, s, a)
    ensures forall w | w in Next(c, s, a).workers :: WorkerOk(c, Next(c, s, a), w)
  {
    var t := Next(c, s, a);
    forall i | 0 <= i < |t.workers|
      ensures WorkerOk(c, t, t.workers[i])
    {
      assert WorkerOk(c, s, s.workers[i]);
      if a.Take? {
        assert s.jobs[0] in s.jobs;
      }
    }
  }

  lemma StepKeepsInv(c: Config, s: Pool, a: Action)
    requires Inv(c, s) && Enabled(c, s, a)
    ensures Inv(c, Next(c, s, a))
  {
    var t := Next(c, s, a);
    StepKeepsWorkers(c, s, a);
    forall i: nat
      ensures Places(c, t, i) == if i < |c.metas| then 1 else 0
    {
      StepConserves(c, s, a, i);
    }
    StepConserves(c, s, a, 0);
    match a {
      case Take(w) => assert forall i | i in t.jobs :: i in s.jobs;
      case Report(w) => assert WorkerOk(c, s, s.workers[w]);
      case Collect => assert s.results[0] in s.results;
      case _ =>
    }
  }

  // ---------------------------------------------------------------- progress

  function Weight(w: Worker): nat {
    match w case Idle => 1 case Holding(_) => 5 case Reporting(_) => 4 case Exited => 0
  }

  function Weights(ws: seq<Worker>): nat {
    if ws == [] then 0 else Weight(ws[0]) + Weights(ws[1..])
  }

  function Measure(c: Config, s: Pool): nat
    requires s.fed <= |c.metas|
  {
    6 * (|c.metas| - s.fed) + 5 * |s.jobs| + Weights(s.workers) + 2 * |s.results| + (if s.closed then 0 else 1)
  }

  lemma {:induction false} WeightsUpdate(ws: seq<Worker>, w: nat, x: Worker)
    requires w < |ws|
    ensures Weights(ws[w := x]) == Weights(ws) - Weight(ws[w]) + Weight(x)
  {
    if w == 0 {
      assert ws[0 := x][1..] == ws[1..];
    } else {
      assert ws[w := x][1..] == ws[1..][w - 1 := x];
      WeightsUpdate(ws[1..], w - 1, x);
    }
  }

  lemma StepDecreases(c: Config, s: Pool, a: Action)
    requires Inv(c, s) && Enabled(c, s, a)
    ensures Inv(c, Next(c, s, a)) && Measure(c, Next(c, s, a)) < Measure(c, s)
  {
    StepKeepsInv(c, s, a);
    if a.Take? || a.Read? || a.Report? || a.Exit? {
      WeightsUpdate(s.workers, a.w, Next(c, s, a).workers[a.w]);
    }
  }

  // Until everything is collected, some goroutine can move.
  lemma NeverStuck(c: Config, s: Pool) returns (a: Action)
    requires Inv(c, s) && |s.collected| < |c.metas|
    ensures Enabled(c, s, a)
  {
    if s.results != [] {
      return Collect;
    }
    if w: nat :| w < |s.workers| && s.workers[w].Reporting? {
      return Report(w);
    }
    if w: nat :| w < |s.workers| && s.workers[w].Holding? {
      assert WorkerOk(c, s, s.workers[w]);
      return Read(w, true);
    }
    if s.jobs != [] {
      assert WorkerOk(c, s, s.workers[0]);
      return Take(0);
    }
    NoneBusy(s.workers);
    a := Feed;
  }

  lemma {:induction false} NoneBusy(ws: seq<Worker>)
    requires forall w | 0 <= w < |ws| :: ws[w].Idle? || ws[w].Exited?
    ensures Busy(ws) == 0
  {
    if ws != [] {
      NoneBusy(ws[1..]);
    }
  }

  // ---------------------------------------------------------------- the collector

  // The collector's variables after it has received the given results.
  datatype Gathered = Gathered(chunks: seq<ChunkMeta>, failed: bool)

  // Once an error was seen, later results are dropped.
  function Gather(n: nat, rs: seq<HashResult>): (g: Gathered)
    ensures |g.chunks| == n
    ensures g.failed <==> exists r :: r in rs && r.meta.None?
  {
    if rs == [] then Gathered(seq(n, _ => NO_META), false)
    else
      var r := rs[|rs| - 1];
      var init := rs[..|rs| - 1];
      assert rs == init + [r];
      var g := Gather(n, init);
      if g.failed || r.meta.None? then Gathered(g.chunks, true)
      else if r.index < n then Gathered(g.chunks[r.index := r.meta.value], false)
      else g  // no result carries such an index
  }

  // The collecting loop: exactly n results, in whatever order they arrive.
  method CollectResults(n: nat, arriving: seq<HashResult>) returns (chunks: seq<ChunkMeta>, failed: bool)
    requires |arriving| == n && forall r | r in arriving :: r.index < n
    ensures Gather(n, arriving) == Gathered(chunks, failed)
  {
    var table := new ChunkMeta[n](_ => NO_META);
    failed := false;
    assert table[..] == seq(n, _ => NO_META);
    for i := 0 to n
      invariant Gather(n, arriving[..i]) == Gathered(table[..], failed)
    {
      var res := arriving[i];
      assert arriving[..i + 1][..i] == arriving[..i];
      if res.meta.None? && !failed {
        failed := true;
      }
      if !failed {
        table[res.index] := res.meta.value;
      }
    }
    assert arriving[..n] == arriving;
    chunks := table[..];
  }

  lemma {:induction false} GatherEntry(c: Config, rs: seq<HashResult>, i: nat)
    requires forall r | r in rs :: Honest(c, r) && r.meta.Some?
    requires i < |c.metas|
    ensures Gather(|c.metas|, rs).chunks[i] == if ResultCount(rs, i) > 0 then c.metas[i] else NO_META
  {
    if rs != [] {
      var r := rs[|rs| - 1];
      var init := rs[..|rs| - 1];
      assert rs == init + [r] && r in rs;
      GatherEntry(c, init, i);
      ResultSnoc(init, r, i);
    }
  }

  // Results for every index, in any order and with no error among them, give the sequential
  // table.
  lemma AnyOrderSameTable(c: Config, rs: seq<HashResult>)
    requires forall r | r in rs :: Honest(c, r) && r.meta.Some?
    requires forall i: nat | i < |c.metas| :: ResultCount(rs, i) > 0
    ensures Gather(|c.metas|, rs) == Gathered(c.metas, false)
  {
    forall i | 0 <= i < |c.metas|
      ensures Gather(|c.metas|, rs).chunks[i] == c.metas[i]
    {
      GatherEntry(c, rs, i);
    }
  }

  // ---------------------------------------------------------------- whole runs

  lemma {:induction false} RunKeepsInv(c: Config, s: Pool, actions: seq<Action>)
    requires Inv(c, s) && Legal(c, s, actions)
    ensures Inv(c, Run(c, s, actions))
    ensures |actions| + Measure(c, Run(c, s, actions)) <= Measure(c, s)
    decreases |actions|
  {
    if actions != [] {
      StepDecreases(c, s, actions[0]);
      RunKeepsInv(c, Next(c, s, actions[0]), actions[1..]);
    }
  }

  // At every point of every interleaving each chunk index is in exactly one place.
  lemma ExactlyOnePlace(c: Config, s0: Pool, actions: seq<Action>, i: nat)
    requires Initial(c, s0) && Legal(c, s0, actions) && i < |c.metas|
    ensures Places(c, Run(c, s0, actions), i) == 1
  {
    InitialInv(c, s0);
    RunKeepsInv(c, s0, actions);
  }

  // No interleaving is longer than six steps a chunk, one a worker, and one to close.
  lemma BoundedSteps(c: Config, s0: Pool, actions: seq<Action>)
    requires Initial(c, s0) && Legal(c, s0, actions)
    ensures |actions| <= 6 * |c.metas| + |s0.workers| + 1
  {
    InitialInv(c, s0);
    RunKeepsInv(c, s0, actions);
    AllIdle(|s0.workers|, 0);
  }

  // Schedule independence: however feeder, workers and collector interleave, as soon as the
  // collector has its results, with workers still about or not, the build fails exactly when some
  // read failed, and otherwise the table is the sequential one.
  lemma ScheduleIndependent(c: Config, s0: Pool, actions: seq<Action>)
    requires Initial(c, s0) && Legal(c, s0, actions)
    requires |Run(c, s0, actions).collected| == |c.metas|
    ensures var s := Run(c, s0, actions); var g := Gather(|c.metas|, s.collected);
            && (g.failed <==> exists r :: r in s.collected && r.meta.None?)
            && (!g.failed ==> g.chunks == c.metas)
  {
    InitialInv(c, s0);
    RunKeepsInv(c, s0, actions);
    var s := Run(c, s0, actions);
    forall i: nat | i < |c.metas|
      ensures ResultCount(s.collected, i) > 0
    {
      assert Places(c, s, i) == 1;
      NotBusyHoldsNothing(s.workers, i);
    }
    if !Gather(|c.metas|, s.collected).failed {
      AnyOrderSameTable(c, s.collected);
    }
  }

  // The collector gets its results: a run that can go no further has collected them all.
  lemma HaltedMeansCollected(c: Config, s0: Pool, actions: seq<Action>)
    requires Initial(c, s0) && Legal(c, s0, actions)
    requires forall a :: !Enabled(c, Run(c, s0, actions), a)
    ensures |Run(c, s0, actions).collected| == |c.metas|
  {
    InitialInv(c, s0);
    RunKeepsInv(c, s0, actions);
    var s := Run(c, s0, actions);
    if |s.collected| < |c.metas| {
      var a := NeverStuck(c, s);
      assert false;
    }
  }

  lemma {:induction false} NotBusyHoldsNothing(ws: seq<Worker>, i: nat)
    requires Busy(ws) == 0
    ensures HeldCount(ws, i) == 0
  {
    if ws != [] {
      NotBusyHoldsNothing(ws[1..], i);
    }
  }
}
