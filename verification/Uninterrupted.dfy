/** The two models of the store agree: a call of StoreProtocol that runs without interruption does
    exactly what Store says of it. */
module Uninterrupted {
  import opened Bytes
  import opened Chunker
  import opened Manifests
  import opened StoreProtocol
  import R = Reader
  import S = Store

  // The store's contents in a protocol state.
  function DiskOf(s: Sys): S.Disk {
    S.Disk(s.file, (set i: nat | i in s.have), s.count)
  }

  // Only thread t moves, and it gets from s to u.
  ghost predicate Alone(c: Config, s: Sys, t: nat, actions: seq<Action>, u: Sys)
    requires WellTyped(c, s)
  {
    (forall a | a in actions :: a == Step(t)) && Legal(c, s, actions) && Run(c, s, actions) == u
  }

  lemma StepThen(c: Config, s: Sys, t: nat, rest: seq<Action>, u: Sys) returns (actions: seq<Action>)
    requires WellTyped(c, s) && Enabled(c, s, Step(t)) && WellTyped(c, Next(c, s, Step(t)))
    requires Alone(c, Next(c, s, Step(t)), t, rest, u)
    ensures Alone(c, s, t, actions, u)
  {
    actions := [Step(t)] + rest;
    assert actions[0] == Step(t) && actions[1..] == rest;
  }

  lemma Still(c: Config, s: Sys, t: nat)
    requires WellTyped(c, s)
    ensures Alone(c, s, t, [], s)
  {}

  // ---------------------------------------------------------------- writing

  lemma FromNotify(c: Config, s: Sys, t: nat) returns (actions: seq<Action>, u: Sys)
    requires WellTyped(c, s) && t < |s.threads| && s.threads[t].WNotify?
    ensures Alone(c, s, t, actions, u)
    ensures u == s.(urgent := s.urgent - {s.threads[t].i}, threads := s.threads[t := WDone])
  {
    TypesKept(c, s, Step(t));
    u := Next(c, s, Step(t));
    Still(c, u, t);
    actions := StepThen(c, s, t, [], u);
  }

  lemma FromSignal(c: Config, s: Sys, t: nat) returns (actions: seq<Action>, u: Sys)
    requires WellTyped(c, s) && t < |s.threads| && s.threads[t].WSignal? && s.lock.None?
    ensures Alone(c, s, t, actions, u)
    ensures DiskOf(u) == DiskOf(s) && u.lock.None? && u.threads == s.threads[t := WDone]
    ensures u.waiters == s.waiters - {s.threads[t].i} && u.urgent == s.urgent - {s.threads[t].i}
  {
    TypesKept(c, s, Step(t));
    var s1 := Next(c, s, Step(t));
    TypesKept(c, s1, Step(t));
    var s2 := Next(c, s1, Step(t));
    assert s2.threads == s.threads[t := WNotify(s.threads[t].i)];
    assert s2.waiters == s.waiters - {s.threads[t].i};
    var rest;
    rest, u := FromNotify(c, s2, t);
    rest := StepThen(c, s1, t, rest, u);
    actions := StepThen(c, s, t, rest, u);
  }

  lemma FromMark(c: Config, s: Sys, t: nat) returns (actions: seq<Action>, u: Sys)
    requires WellTyped(c, s) && t < |s.threads| && s.threads[t].WMark? && s.lock.None?
    ensures Alone(c, s, t, actions, u)
    ensures DiskOf(u) == S.Disk(s.file, DiskOf(s).have + {s.threads[t].i}, s.count + 1)
    ensures u.lock.None? && u.threads == s.threads[t := WDone]
    ensures u.waiters == s.waiters - {s.threads[t].i} && u.urgent == s.urgent - {s.threads[t].i}
  {
    TypesKept(c, s, Step(t));
    var s1 := Next(c, s, Step(t));
    assert DiskOf(s1).have == DiskOf(s).have + {s.threads[t].i};
    var rest;
    rest, u := FromSignal(c, s1, t);
    actions := StepThen(c, s, t, rest, u);
  }

  lemma OverwriteOneMore(file: seq<byte>, lo: nat, data: seq<byte>, k: nat)
    requires lo + |data| <= |file| && k < |data|
    ensures S.Overwrite(file, lo, data[..k])[lo + k := data[k]] == S.Overwrite(file, lo, data[..k + 1])
  {}

  // k bytes of the data are in place.
  lemma {:induction false} FromWriting(c: Config, s: Sys, t: nat, file: seq<byte>, k: nat)
    returns (actions: seq<Action>, u: Sys)
    requires WellTyped(c, s) && t < |s.threads| && s.threads[t].WWriting? && s.threads[t].k == k && s.lock.None?
    requires var (i, data) := (s.threads[t].i, s.threads[t].data);
             |file| == c.m.fileSize && 0 <= Start(c, i) && s.file == S.Overwrite(file, Start(c, i), data[..k])
    ensures Alone(c, s, t, actions, u)
    ensures var (i, data) := (s.threads[t].i, s.threads[t].data);
            && DiskOf(u) == S.Disk(S.Overwrite(file, Start(c, i), data), DiskOf(s).have + {i}, s.count + 1)
            && u.lock.None? && u.threads == s.threads[t := WDone]
            && u.waiters == s.waiters - {i} && u.urgent == s.urgent - {i}
    decreases |s.threads[t].data| - k
  {
    var i, data := s.threads[t].i, s.threads[t].data;
    TypesKept(c, s, Step(t));
    var s1 := Next(c, s, Step(t));
    var rest;
    if k < |data| {
      OverwriteOneMore(file, Start(c, i), data, k);
      assert s1.threads == s.threads[t := WWriting(i, data, k + 1)];
      rest, u := FromWriting(c, s1, t, file, k + 1);
    } else {
      assert data[..k] == data;
      assert s1.threads == s.threads[t := WMark(i)];
      rest, u := FromMark(c, s1, t);
    }
    actions := StepThen(c, s, t, rest, u);
  }

  // An uninterrupted WriteChunk has exactly the effect that Store.Write gives, and signals and
  // notifies exactly for a chunk that is stored afterwards.
  lemma WholeWrite(c: Config, s: Sys, t: nat) returns (actions: seq<Action>, u: Sys)
    requires WellTyped(c, s) && t < |s.threads| && s.threads[t].WCheck? && s.lock.None?
    ensures S.Usable(c.m) && Alone(c, s, t, actions, u)
    ensures var (i, data) := (s.threads[t].i, s.threads[t].data);
            && DiskOf(u) == S.Write(c.m, c.sha, DiskOf(s), i, data, |data|).0
            && u.lock.None? && u.threads == s.threads[t := WDone]
            && u.urgent == (if 0 <= i < Count(c) && i in u.have then s.urgent - {i} else s.urgent)
            && u.waiters == (if i in u.have && i !in s.have then s.waiters - {i} else s.waiters)
  {
    var i, data := s.threads[t].i, s.threads[t].data;
    TypesKept(c, s, Step(t));
    var s1 := Next(c, s, Step(t));
    var rest;
    if !(0 <= i < Count(c)) {
      u := s1;
      Still(c, s1, t);
      rest := [];
    } else if i in s.have {
      rest, u := FromNotify(c, s1, t);
    } else if c.sha(data) != c.m.chunks[i].hash {
      u := s1;
      Still(c, s1, t);
      rest := [];
    } else {
      MulMono(0, i, c.d);
      assert S.Overwrite(s.file, Start(c, i), data[..0]) == s.file;
      rest, u := FromWriting(c, s1, t, s.file, 0);
    }
    actions := StepThen(c, s, t, rest, u);
  }

  // ---------------------------------------------------------------- reading

  // Only the set of demanded chunks, the registered channels and thread t's state differ.
  predicate SameStore(s: Sys, u: Sys, t: nat) {
    && u.file == s.file && u.have == s.have && u.count == s.count && u.lock == s.lock && u.closed == s.closed
    && t < |s.threads| && |u.threads| == |s.threads|
    && (forall v | 0 <= v < |s.threads| && v != t :: u.threads[v] == s.threads[v])
  }

  // A read that has its chunks returns the rest of its bytes.
  lemma {:induction false} FromRead(c: Config, s: Sys, t: nat) returns (actions: seq<Action>, u: Sys)
    requires WellTyped(c, s) && t < |s.threads| && s.threads[t].RRead?
    ensures Alone(c, s, t, actions, u) && SameStore(s, u, t) && u.urgent == s.urgent
    ensures var (r, buf) := (s.threads[t].r, s.threads[t].buf);
            u.threads[t] == RDone(r, buf + s.file[r.off + |buf|..r.off + r.len])
    decreases s.threads[t].r.len - |s.threads[t].buf|
  {
    var r, buf := s.threads[t].r, s.threads[t].buf;
    TypesKept(c, s, Step(t));
    var s1 := Next(c, s, Step(t));
    var rest;
    if |buf| < r.len {
      rest, u := FromRead(c, s1, t);
      var x := r.off + |buf|;
      assert s.file[x..r.off + r.len] == [s.file[x]] + s.file[x + 1..r.off + r.len];
      assert (buf + [s.file[x]]) + s.file[x + 1..r.off + r.len] == buf + ([s.file[x]] + s.file[x + 1..r.off + r.len]);
    } else {
      assert buf + s.file[r.off + |buf|..r.off + r.len] == buf;
      rest := [];
      u := s1;
      Still(c, u, t);
    }
    actions := StepThen(c, s, t, rest, u);
  }

  // The missing chunks of i..Last are demanded in addition.
  ghost predicate DemandsFrom(c: Config, s: Sys, r: Req, i: int, u: Sys)
    requires ConfigOk(c) && ReqOk(c, r)
  {
    forall j :: j in u.urgent <==> j in s.urgent || (i <= j <= Last(c, r) && j !in s.have)
  }

  // How a read of r ends that waits for chunk i and finds all before it stored.
  predicate EndsAs(c: Config, s: Sys, r: Req, i: nat, pc: Pc)
    requires ConfigOk(c) && ReqOk(c, r) && |s.file| == c.m.fileSize
  {
    match S.FirstMissing(DiskOf(s).have, i, Last(c, r))
    case Some(j) => pc.RBlocked? && pc.r == r && pc.i == j
    case None => pc == RDone(r, s.file[r.off..r.off + r.len])
  }

  // The chunk is missing: the read takes the lock, registers and blocks.
  lemma FromMissing(c: Config, s: Sys, t: nat) returns (actions: seq<Action>, u: Sys)
    requires WellTyped(c, s) && t < |s.threads| && s.threads[t].RWait? && s.lock.None?
    requires s.threads[t].i !in s.have
    ensures Alone(c, s, t, actions, u) && SameStore(s, u, t) && u.urgent == s.urgent
    ensures u.threads[t].RBlocked? && u.threads[t].r == s.threads[t].r && u.threads[t].i == s.threads[t].i
  {
    TypesKept(c, s, Step(t));
    var s1 := Next(c, s, Step(t));
    TypesKept(c, s1, Step(t));
    var s2 := Next(c, s1, Step(t));
    TypesKept(c, s2, Step(t));
    var s3 := Next(c, s2, Step(t));
    TypesKept(c, s3, Step(t));
    u := Next(c, s3, Step(t));
    Still(c, u, t);
    var rest := StepThen(c, s3, t, [], u);
    rest := StepThen(c, s2, t, rest, u);
    rest := StepThen(c, s1, t, rest, u);
    actions := StepThen(c, s, t, rest, u);
  }

  lemma {:induction false} FromWait(c: Config, s: Sys, t: nat) returns (actions: seq<Action>, u: Sys)
    requires WellTyped(c, s) && t < |s.threads| && s.threads[t].RWait? && s.lock.None?
    ensures Alone(c, s, t, actions, u) && SameStore(s, u, t) && u.urgent == s.urgent
    ensures s.threads[t].i >= 0 && EndsAs(c, s, s.threads[t].r, s.threads[t].i, u.threads[t])
    decreases Last(c, s.threads[t].r) - s.threads[t].i
  {
    var r, i := s.threads[t].r, s.threads[t].i;
    FirstBeforeLast(c, r);
    if i !in s.have {
      actions, u := FromMissing(c, s, t);
    } else {
      TypesKept(c, s, Step(t));
      var s1 := Next(c, s, Step(t));
      var rest;
      if i < Last(c, r) {
        rest, u := FromWait(c, s1, t);
      } else {
        rest, u := FromRead(c, s1, t);
      }
      actions := StepThen(c, s, t, rest, u);
    }
  }

  // One chunk is demanded if it is missing.
  lemma DemandOne(c: Config, s: Sys, t: nat) returns (u: Sys)
    requires WellTyped(c, s) && t < |s.threads| && s.threads[t].RDemand?
    ensures WellTyped(c, u)
    ensures var (r, i) := (s.threads[t].r, s.threads[t].i);
            u == s.(urgent := if i in s.have then s.urgent else s.urgent + {i},
                    threads := s.threads[t := AfterDemand(c, r, i)])
    ensures forall rest, v | Alone(c, u, t, rest, v) :: exists actions :: Alone(c, s, t, actions, v)
  {
    var i := s.threads[t].i;
    TypesKept(c, s, Step(t));
    var s1 := Next(c, s, Step(t));
    if i in s.have {
      u := s1;
      forall rest, v | Alone(c, u, t, rest, v)
        ensures exists actions :: Alone(c, s, t, actions, v)
      {
        var actions := StepThen(c, s, t, rest, v);
      }
    } else {
      TypesKept(c, s1, Step(t));
      var s2 := Next(c, s1, Step(t));
      TypesKept(c, s2, Step(t));
      u := Next(c, s2, Step(t));
      assert u.threads == s.threads[t := AfterDemand(c, s.threads[t].r, i)];
      forall rest, v | Alone(c, u, t, rest, v)
        ensures exists actions :: Alone(c, s, t, actions, v)
      {
        var actions := StepThen(c, s2, t, rest, v);
        actions := StepThen(c, s1, t, actions, v);
        actions := StepThen(c, s, t, actions, v);
      }
    }
  }

  lemma {:induction false} FromDemand(c: Config, s: Sys, t: nat) returns (actions: seq<Action>, u: Sys)
    requires WellTyped(c, s) && t < |s.threads| && s.threads[t].RDemand? && s.lock.None?
    ensures Alone(c, s, t, actions, u) && SameStore(s, u, t)
    ensures DemandsFrom(c, s, s.threads[t].r, s.threads[t].i, u)
    ensures First(c, s.threads[t].r) >= 0 && EndsAs(c, s, s.threads[t].r, First(c, s.threads[t].r), u.threads[t])
    decreases Last(c, s.threads[t].r) - s.threads[t].i
  {
    var r, i := s.threads[t].r, s.threads[t].i;
    FirstBeforeLast(c, r);
    var s1 := DemandOne(c, s, t);
    var rest;
    if i < Last(c, r) {
      rest, u := FromDemand(c, s1, t);
    } else {
      rest, u := FromWait(c, s1, t);
    }
    assert Alone(c, s1, t, rest, u);
    actions :| Alone(c, s, t, actions, u);
  }

  // An uninterrupted Read ends with exactly the bytes that Store.ReadRange gives, or blocks on the
  // very chunk; and it has demanded exactly the chunks that the reader's specification names.
  lemma WholeRead(c: Config, s: Sys, t: nat) returns (actions: seq<Action>, u: Sys)
    requires WellTyped(c, s) && t < |s.threads| && s.lock.None?
    requires s.threads[t].RDemand? && s.threads[t].i == First(c, s.threads[t].r)
    ensures S.Usable(c.m) && Alone(c, s, t, actions, u) && SameStore(s, u, t)
    ensures var r := s.threads[t].r;
            match S.ReadRange(c.m, DiskOf(s), r.off, r.len)
            case Data(bytes) => u.threads[t] == RDone(r, bytes)
            case Blocks(i) => u.threads[t].RBlocked? && u.threads[t].r == r && u.threads[t].i == i
            case Failed => false
    ensures var r := s.threads[t].r;
            forall j :: j in u.urgent <==>
              j in s.urgent || (j >= 0 && j in R.Demanded(c.m, DiskOf(s).have, r.off, r.len))
  {
    FirstBeforeLast(c, s.threads[t].r);
    actions, u := FromDemand(c, s, t);
  }
}
