/** The joiner's download engine as a whole: the scheduler's sets, the peers' in-flight maps, the
    tracker and the stored chunks (internal/scheduler/scheduler.go, internal/peer/swarm.go and the
    callbacks of cmd/join.go:80-99). Each event is one atomic step. */
module Engine {
  import opened Bytes
  import opened Peers
  import opened Strategy
  import T = Tracker

  const REQUEST_TIMEOUT: real := 3.0

  datatype State = State(
    peers: map<PeerId, PeerState>,   // the connected peers
    avail: T.Avail,
    have: set<nat>,                  // the stored chunks
    inFlight: set<nat>,              // the scheduler's
    urgent: set<nat>,
    cursor: int)

  datatype Event =
    | Tick(now: real, cands: seq<Candidate>)      // with the order PrioritizeChunks returned
    // A PIECE from a peer, connected or not. `good`: its hash matches and the disk takes it.
    | Piece(from: PeerId, index: nat, size: nat, good: bool, now: real)
    | BitfieldMsg(from: PeerId, bits: seq<byte>)
    // `held`: the bitfield received from a peer that is not connected, or not yet.
    | HaveMsg(from: PeerId, index: nat, held: Option<seq<byte>>)
    | Connect(id: PeerId, held: Option<seq<byte>>)
    | Disconnect(id: PeerId)
    | Demand(index: nat)
    | SetCursor(at: int)

  function Missing(s: State): set<nat> {
    set i | 0 <= i < |s.avail| && i !in s.have
  }

  // ---------------------------------------------------------------- tick

  function TimedOut(peers: map<PeerId, PeerState>, now: real): set<nat> {
    set id, i | id in peers && i in Expired(peers[id], REQUEST_TIMEOUT, now) :: i
  }

  function ExpireAll(peers: map<PeerId, PeerState>, now: real): map<PeerId, PeerState> {
    map id | id in peers :: Expire(peers[id], REQUEST_TIMEOUT, now)
  }

  function AfterTimeouts(s: State, now: real): State {
    s.(peers := ExpireAll(s.peers, now), inFlight := s.inFlight - TimedOut(s.peers, now))
  }

  function Budget(s: State): nat {
    if |s.inFlight| >= MAX_TOTAL_IN_FLIGHT then 0 else MAX_TOTAL_IN_FLIGHT - |s.inFlight|
  }

  ghost predicate CandidatesOf(s: State, cands: seq<Candidate>) {
    Prioritized(cands, Missing(s), s.cursor, s.avail, s.inFlight, s.urgent)
  }

  // The chunks assigned to one peer, in order.
  function Batch(asg: seq<Assignment>, id: PeerId): seq<nat> {
    if asg == [] then []
    else (if asg[0].peer == id then [asg[0].chunk] else []) + Batch(asg[1..], id)
  }

  function Chunks(asg: seq<Assignment>): set<nat> {
    set a | a in asg :: a.chunk
  }

  // The batches are sent after all assignments are made.
  function Requested(peers: map<PeerId, PeerState>, asg: seq<Assignment>, now: real): map<PeerId, PeerState> {
    map id | id in peers :: Request(peers[id], Batch(asg, id), now)
  }

  // The assignments a tick makes.
  function TickAssignments(s: State, now: real, cands: seq<Candidate>): seq<Assignment> {
    var t := AfterTimeouts(s, now);
    Assign(cands, t.peers, Budget(t))
  }

  function TickOf(s: State, now: real, cands: seq<Candidate>): State {
    var t := AfterTimeouts(s, now);
    var asg := TickAssignments(s, now, cands);
    t.(inFlight := t.inFlight + Chunks(asg), peers := Requested(t.peers, asg, now))
  }

  // ---------------------------------------------------------------- the other events

  // WriteChunk returns nil: the chunk is in range and either stored already or written now.
  predicate Accepted(s: State, index: nat, good: bool) {
    index < |s.avail| && (index in s.have || good)
  }

  function PieceOf(s: State, from: PeerId, index: nat, size: nat, good: bool, now: real): State {
    var t := if from in s.peers then s.(peers := s.peers[from := Clear(s.peers[from], index, size, now)]) else s;
    if Accepted(s, index, good) then
      t.(have := s.have + {index}, inFlight := s.inFlight - {index}, urgent := s.urgent - {index})
    else t
  }

  // The tracker after an update with a peer's bitfield; a missing bitfield covers no chunk.
  function Listing(avail: T.Avail, id: PeerId, bits: Option<seq<byte>>): T.Avail {
    match bits
    case None => avail
    case Some(bf) => T.Updated(avail, id, bf)
  }

  function BitfieldOf(s: State, from: PeerId, bits: seq<byte>): State {
    s.(avail := T.Updated(s.avail, from, bits),
       peers := if from in s.peers then s.peers[from := s.peers[from].(bits := Some(bits))] else s.peers)
  }

  function HaveOf(s: State, from: PeerId, index: nat, held: Option<seq<byte>>): State {
    if from in s.peers then
      var p := WithHave(s.peers[from], index);
      s.(peers := s.peers[from := p], avail := Listing(s.avail, from, p.bits))
    else s.(avail := Listing(s.avail, from, WithHave(NEW_PEER.(bits := held), index).bits))
  }

  function ConnectOf(s: State, id: PeerId, held: Option<seq<byte>>): State {
    s.(peers := s.peers[id := NEW_PEER.(bits := held)], avail := Listing(s.avail, id, held))
  }

  // The peer is forgotten and its outstanding chunks may be requested again.
  function DisconnectOf(s: State, id: PeerId): State {
    if id in s.peers then
      s.(peers := s.peers - {id}, avail := T.Removed(s.avail, id), inFlight := s.inFlight - s.peers[id].inFlight.Keys)
    else s
  }

  function Next(s: State, e: Event): State {
    match e
    case Tick(now, cands) => TickOf(s, now, cands)
    case Piece(from, index, size, good, now) => PieceOf(s, from, index, size, good, now)
    case BitfieldMsg(from, bits) => BitfieldOf(s, from, bits)
    case HaveMsg(from, index, held) => HaveOf(s, from, index, held)
    case Connect(id, held) => ConnectOf(s, id, held)
    case Disconnect(id) => DisconnectOf(s, id)
    case Demand(index) => if index in s.have then s else s.(urgent := s.urgent + {index})
    case SetCursor(at) => s.(cursor := at)
  }

  // A tick with requests to spare works with a priority order of its own candidates; a new
  // connection has a new ID; only existing chunks are demanded.
  ghost predicate Enabled(s: State, e: Event) {
    match e
    case Tick(now, cands) =>
      Budget(AfterTimeouts(s, now)) > 0 ==> CandidatesOf(AfterTimeouts(s, now), cands)
    case Connect(id, _) => id !in s.peers
    case Demand(index) => index < |s.avail|
    case _ => true
  }

  predicate Initial(s: State) {
    s.peers == map[] && (forall i | 0 <= i < |s.avail| :: s.avail[i] == {})
    && s.have == {} && s.inFlight == {} && s.urgent == {}
  }

  ghost predicate Legal(s: State, events: seq<Event>)
    decreases |events|
  {
    events == [] || (Enabled(s, events[0]) && Legal(Next(s, events[0]), events[1..]))
  }

  function Run(s: State, events: seq<Event>): State
    decreases |events|
  {
    if events == [] then s else Run(Next(s, events[0]), events[1..])
  }
}
