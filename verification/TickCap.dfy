/** One tick taken apart (internal/scheduler/scheduler.go:155-219): it works from a snapshot of the
    in-flight set while pieces and disconnects remove entries concurrently. */
module TickCap {
  import opened Bytes
  import opened Strategy
  import opened Sets
  import Engine
  import Ownership

  datatype State = State(
    inFlight: set<nat>,          // the scheduler's, live
    running: bool,
    snap: set<nat>,              // what the tick saw
    todo: seq<nat>,              // candidates still to consider
    budget: nat,
    batches: seq<Assignment>)    // this tick's assignments so far

  datatype Action =
    | Begin(cands: seq<nat>)     // snapshot and priority order
    | AssignTo(peer: PeerId)     // a peer was found for the next candidate
    | Skip                       // none was
    | Finish
    | Remove(i: nat)             // OnPieceReceived or ReleaseInFlight

  predicate Enabled(s: State, a: Action) {
    match a
    case Begin(cands) =>
      && !s.running && |s.inFlight| < MAX_TOTAL_IN_FLIGHT
      && (forall x, y | 0 <= x < y < |cands| :: cands[x] != cands[y])
      && (forall c | c in cands :: c !in s.inFlight)
    case AssignTo(_) => s.running && s.todo != [] && s.budget > 0
    case Skip => s.running && s.todo != [] && s.budget > 0
    case Finish => s.running && (s.todo == [] || s.budget == 0)
    case Remove(_) => true
  }

  function Next(s: State, a: Action): State
    requires Enabled(s, a)
  {
    match a
    case Begin(cands) =>
      State(s.inFlight, true, s.inFlight, cands, MAX_TOTAL_IN_FLIGHT - |s.inFlight|, [])
    case AssignTo(peer) =>
      s.(inFlight := s.inFlight + {s.todo[0]}, todo := s.todo[1..], budget := s.budget - 1,
         batches := s.batches + [Assignment(peer, s.todo[0])])
    case Skip => s.(todo := s.todo[1..])
    case Finish => s.(running := false)
    case Remove(i) => s.(inFlight := s.inFlight - {i})
  }

  predicate Initial(s: State) {
    s == State({}, false, {}, [], 0, [])
  }

  predicate Legal(s: State, actions: seq<Action>)
    decreases |actions|
  {
    actions == [] || (Enabled(s, actions[0]) && Legal(Next(s, actions[0]), actions[1..]))
  }

  function Run(s: State, actions: seq<Action>): State
    requires Legal(s, actions)
    decreases |actions|
  {
    if actions == [] then s else Run(Next(s, actions[0]), actions[1..])
  }

  predicate Distinct(xs: seq<nat>) {
    forall x, y | 0 <= x < y < |xs| :: xs[x] != xs[y]
  }

  predicate NoRepeats(batches: seq<Assignment>) {
    forall x, y | 0 <= x < y < |batches| :: batches[x].chunk != batches[y].chunk
  }

  ghost predicate Inv(s: State) {
    && |s.inFlight| <= MAX_TOTAL_IN_FLIGHT
    && (s.running ==>
          && s.inFlight <= s.snap + Engine.Chunks(s.batches)
          && |s.snap| + |s.batches| + s.budget == MAX_TOTAL_IN_FLIGHT
          && Distinct(s.todo)
          && (forall c | c in s.todo :: c !in s.snap && c !in Engine.Chunks(s.batches)))
    && NoRepeats(s.batches)
  }

  lemma Covered(s: State)
    requires s.inFlight <= s.snap + Engine.Chunks(s.batches)
    ensures |s.inFlight| <= |s.snap| + |s.batches|
  {
    Ownership.ChunksSize(s.batches);
    SubsetSize(s.inFlight, s.snap + Engine.Chunks(s.batches));
  }

  lemma TakeFirst(todo: seq<nat>, taken: set<nat>)
    requires todo != [] && Distinct(todo) && forall c | c in todo :: c !in taken
    ensures Distinct(todo[1..]) && forall c | c in todo[1..] :: c !in taken && c != todo[0]
  {}

  lemma AddBatch(batches: seq<Assignment>, a: Assignment)
    requires NoRepeats(batches) && a.chunk !in Engine.Chunks(batches)
    ensures NoRepeats(batches + [a]) && Engine.Chunks(batches + [a]) == Engine.Chunks(batches) + {a.chunk}
  {
    forall x | 0 <= x < |batches|
      ensures batches[x].chunk != a.chunk
    {
      assert batches[x] in batches;
    }
  }

  lemma AssignKeepsInv(s: State, peer: PeerId)
    requires Inv(s) && Enabled(s, AssignTo(peer))
    ensures Inv(Next(s, AssignTo(peer)))
  {
    var t := Next(s, AssignTo(peer));
    assert s.todo[0] in s.todo;
    TakeFirst(s.todo, s.snap + Engine.Chunks(s.batches));
    AddBatch(s.batches, Assignment(peer, s.todo[0]));
    Covered(t);
  }

  lemma StepKeepsInv(s: State, a: Action)
    requires Inv(s) && Enabled(s, a)
    ensures Inv(Next(s, a))
  {
    var t := Next(s, a);
    match a {
      case AssignTo(peer) =>
        AssignKeepsInv(s, peer);
      case Skip =>
        assert forall c | c in t.todo :: c in s.todo;
      case Remove(i) =>
        SubsetSize(t.inFlight, s.inFlight);
      case Begin(_) =>
      case Finish =>
    }
  }

  lemma {:induction false} RunKeepsInv(s: State, actions: seq<Action>)
    requires Inv(s) && Legal(s, actions)
    ensures Inv(Run(s, actions))
    decreases |actions|
  {
    if actions != [] {
      StepKeepsInv(s, actions[0]);
      RunKeepsInv(Next(s, actions[0]), actions[1..]);
    }
  }

  // Over any number of ticks, at every intermediate step, whatever is removed meanwhile, at most
  // 16 chunks are in flight; a tick's batches never repeat a chunk; and their total is the budget
  // consumed.
  lemma CapAtEveryStep(s0: State, actions: seq<Action>)
    requires Initial(s0) && Legal(s0, actions)
    ensures var t := Run(s0, actions);
            && |t.inFlight| <= MAX_TOTAL_IN_FLIGHT
            && (forall x, y | 0 <= x < y < |t.batches| :: t.batches[x].chunk != t.batches[y].chunk)
            && (t.running ==> |t.batches| == (MAX_TOTAL_IN_FLIGHT - |t.snap|) - t.budget)
  {
    RunKeepsInv(s0, actions);
  }
  // ---------------------------------------------------------------- undisturbed ticks

  predicate NoRemovals(actions: seq<Action>) {
    forall a | a in actions :: !a.Remove?
  }

  ghost predicate Undisturbed(s: State) {
    s.running ==> s.inFlight == s.snap + Engine.Chunks(s.batches)
  }

  lemma StepStaysUndisturbed(s: State, a: Action)
    requires Inv(s) && Undisturbed(s) && Enabled(s, a) && !a.Remove?
    ensures Undisturbed(Next(s, a))
  {
    if a.AssignTo? {
      assert s.todo[0] in s.todo;
      AddBatch(s.batches, Assignment(a.peer, s.todo[0]));
    }
  }

  // While nothing is removed, the set is what the tick saw and what it has assigned.
  lemma {:induction false} UndisturbedTick(s: State, actions: seq<Action>)
    requires Inv(s) && Undisturbed(s) && Legal(s, actions) && NoRemovals(actions)
    ensures Undisturbed(Run(s, actions))
    decreases |actions|
  {
    if actions != [] {
      assert actions[0] in actions && forall b | b in actions[1..] :: b in actions;
      StepKeepsInv(s, actions[0]);
      StepStaysUndisturbed(s, actions[0]);
      UndisturbedTick(Next(s, actions[0]), actions[1..]);
    }
  }
}
