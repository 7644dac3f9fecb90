/** How a joiner is greeted (internal/peer/swarm.go:157-265 and 412-486): the host writes four
    messages straight to a new connection and only then lets its queue, fed by replies and
    broadcasts, be written to it; the joiner reads the four synchronously. */
module Handshake {
  import opened Bytes
  import opened Wire
  import opened Stream
  import opened Framing
  import Codec
  import opened Sets

  // ---------------------------------------------------------------- the host

  datatype Host = Host(self: PeerId, manifest: Message, bits: seq<byte>)

  // Reading: the joiner's HANDSHAKE is awaited. Direct(k): k of the four messages written.
  // Started: the read and write loops run. Added: the connection is in the peer table.
  datatype Phase = Reading | Direct(k: nat) | Started | Added | Closed

  // `wire` lists the messages written, or at least begun, in order.
  datatype Conn = Conn(addr: seq<byte>, phase: Phase, wire: seq<Message>, queue: seq<Message>)

  datatype Action =
    | Accept(addr: seq<byte>)
    | Greet(c: nat, ok: bool)                       // a HANDSHAKE is read, or not
    | Write(c: nat, order: seq<nat>, ok: bool)      // the next direct write, complete or not
    | Start(c: nat)
    | Add(c: nat)
    | Reply(c: nat, msg: Message)
    | Broadcast(c: nat, msg: Message)
    | Flush(c: nat)                                 // the write loop takes a message off the queue
    | Drop(c: nat)

  function AddedConns(cs: seq<Conn>): set<nat> {
    set k: nat | k < |cs| && cs[k].phase.Added?
  }

  function Addrs(cs: seq<Conn>, order: seq<nat>): seq<seq<byte>>
    requires forall k | k in order :: k < |cs|
  {
    seq(|order|, i requires 0 <= i < |order| => (assert order[i] in order; cs[order[i]].addr))
  }

  function Script(h: Host, k: nat, addrs: seq<seq<byte>>): Message {
    if k == 0 then Handshake(h.self, 1)
    else if k == 1 then h.manifest
    else if k == 2 then Bitfield(h.bits)
    else PeerList(addrs)
  }

  // Broadcasts go to the connections in the peer table, in no particular order; the peer list
  // is made from the same table. Replies are sent by the read loop.
  ghost predicate Enabled(cs: seq<Conn>, a: Action) {
    match a
    case Accept(_) => true
    case Greet(c, _) => c < |cs| && cs[c].phase.Reading?
    case Write(c, order, _) => c < |cs| && cs[c].phase.Direct? && cs[c].phase.k < 4 && Lists(order, AddedConns(cs))
    case Start(c) => c < |cs| && cs[c].phase == Direct(4)
    case Add(c) => c < |cs| && cs[c].phase.Started?
    case Reply(c, _) => c < |cs| && (cs[c].phase.Started? || cs[c].phase.Added?)
    case Broadcast(c, _) => c < |cs| && cs[c].phase.Added?
    case Flush(c) => c < |cs| && (cs[c].phase.Started? || cs[c].phase.Added?) && cs[c].queue != []
    case Drop(c) => c < |cs|
  }

  ghost function Next(h: Host, cs: seq<Conn>, a: Action): seq<Conn>
    requires Enabled(cs, a)
  {
    match a
    case Accept(addr) => cs + [Conn(addr, Reading, [], [])]
    case Greet(c, ok) => cs[c := cs[c].(phase := if ok then Direct(0) else Closed)]
    case Write(c, order, ok) =>
      cs[c := cs[c].(wire := cs[c].wire + [Script(h, cs[c].phase.k, Addrs(cs, order))],
                     phase := if ok then Direct(cs[c].phase.k + 1) else Closed)]
    case Start(c) => cs[c := cs[c].(phase := Started)]
    case Add(c) => cs[c := cs[c].(phase := Added)]
    case Reply(c, msg) => cs[c := cs[c].(queue := cs[c].queue + [msg])]
    case Broadcast(c, msg) => cs[c := cs[c].(queue := cs[c].queue + [msg])]
    case Flush(c) => cs[c := cs[c].(wire := cs[c].wire + [cs[c].queue[0]], queue := cs[c].queue[1..])]
    case Drop(c) => cs[c := cs[c].(phase := Closed)]
  }

  ghost predicate Legal(h: Host, cs: seq<Conn>, actions: seq<Action>)
    decreases |actions|
  {
    actions == [] || (Enabled(cs, actions[0]) && Legal(h, Next(h, cs, actions[0]), actions[1..]))
  }

  ghost function Run(h: Host, cs: seq<Conn>, actions: seq<Action>): seq<Conn>
    requires Legal(h, cs, actions)
    decreases |actions|
  {
    if actions == [] then cs else Run(h, Next(h, cs, actions[0]), actions[1..])
  }

  // The k-th message on the connection is what the script says.
  ghost predicate OnScript(h: Host, wire: seq<Message>, k: nat) {
    k < |wire| ==> exists addrs :: wire[k] == Script(h, k, addrs)
  }

  ghost predicate ConnOk(h: Host, c: Conn) {
    && OnScript(h, c.wire, 0) && OnScript(h, c.wire, 1) && OnScript(h, c.wire, 2) && OnScript(h, c.wire, 3)
    && match c.phase
       case Reading => c.wire == [] && c.queue == []
       case Direct(k) => k <= 4 && |c.wire| == k && c.queue == []
       case Started => |c.wire| >= 4
       case Added => |c.wire| >= 4
       case Closed => true
  }

  lemma AppendOnScript(h: Host, c: Conn, msg: Message)
    requires ConnOk(h, c)
    requires |c.wire| >= 4 || exists addrs :: msg == Script(h, |c.wire|, addrs)
    ensures var w := c.wire + [msg];
            OnScript(h, w, 0) && OnScript(h, w, 1) && OnScript(h, w, 2) && OnScript(h, w, 3)
  {}

  ghost predicate AllOk(h: Host, cs: seq<Conn>) {
    forall c | 0 <= c < |cs| :: ConnOk(h, cs[c])
  }

  lemma StepKeepsOk(h: Host, cs: seq<Conn>, a: Action)
    requires Enabled(cs, a) && AllOk(h, cs)
    ensures AllOk(h, Next(h, cs, a))
  {
    match a {
      case Write(c, order, _) =>
        AppendOnScript(h, cs[c], Script(h, cs[c].phase.k, Addrs(cs, order)));
      case Flush(c) =>
        AppendOnScript(h, cs[c], cs[c].queue[0]);
      case _ =>
    }
  }

  lemma {:induction false} RunKeepsOk(h: Host, cs: seq<Conn>, actions: seq<Action>)
    requires Legal(h, cs, actions) && AllOk(h, cs)
    ensures AllOk(h, Run(h, cs, actions))
    decreases |actions|
  {
    if actions != [] {
      StepKeepsOk(h, cs, actions[0]);
      RunKeepsOk(h, Next(h, cs, actions[0]), actions[1..]);
    }
  }

  // In every interleaving of joins, replies and broadcasts, what the host writes to any
  // connection begins HANDSHAKE, MANIFEST, BITFIELD, PEER_LIST, as far as it gets.
  lemma GreetingFirst(h: Host, actions: seq<Action>, c: nat)
    requires Legal(h, [], actions) && c < |Run(h, [], actions)|
    ensures var wire := Run(h, [], actions)[c].wire;
            && (|wire| > 0 ==> wire[0] == Handshake(h.self, 1))
            && (|wire| > 1 ==> wire[1] == h.manifest)
            && (|wire| > 2 ==> wire[2] == Bitfield(h.bits))
            && (|wire| > 3 ==> wire[3].PeerList?)
  {
    RunKeepsOk(h, [], actions);
    assert ConnOk(h, Run(h, [], actions)[c]);
  }

  // The listed addresses are those of the connections in the peer table, one for each.
  ghost predicate ListsPeers(cs: seq<Conn>, addrs: seq<seq<byte>>) {
    exists order :: Lists(order, AddedConns(cs)) && addrs == Addrs(cs, order)
  }

  // A message once written stays where it is.
  lemma {:induction false} WrittenStays(h: Host, cs: seq<Conn>, actions: seq<Action>, c: nat)
    requires Legal(h, cs, actions) && c < |cs| && |cs[c].wire| > 3
    ensures c < |Run(h, cs, actions)|
    ensures var wire := Run(h, cs, actions)[c].wire; |wire| > 3 && wire[3] == cs[c].wire[3]
    decreases |actions|
  {
    if actions != [] {
      var next := Next(h, cs, actions[0]);
      assert |next| >= |cs| && cs[c].wire <= next[c].wire;
      WrittenStays(h, next, actions[1..], c);
    }
  }

  // The fourth message is written by one step, and names the peer table of that moment.
  lemma FourthIsWritten(h: Host, cs: seq<Conn>, a: Action, c: nat)
    requires Enabled(cs, a) && AllOk(h, cs) && (c < |cs| ==> |cs[c].wire| <= 3)
    requires c < |Next(h, cs, a)| && |Next(h, cs, a)[c].wire| > 3
    ensures c < |cs| && cs[c].phase == Direct(3)
    ensures var m := Next(h, cs, a)[c].wire[3]; m.PeerList? && ListsPeers(cs, m.addrs)
  {
    assert c < |cs| && ConnOk(h, cs[c]);
    assert a.Write? && a.c == c;
    assert Next(h, cs, a)[c].wire[3] == PeerList(Addrs(cs, a.order));
  }

  // Some moment of the run at which connection c was about to be sent the peer list.
  ghost predicate ListedAt(h: Host, cs: seq<Conn>, actions: seq<Action>, n: nat, c: nat, addrs: seq<seq<byte>>) {
    && n <= |actions| && Legal(h, cs, actions[..n])
    && var at := Run(h, cs, actions[..n]);
       c < |at| && at[c].phase == Direct(3) && ListsPeers(at, addrs)
  }

  lemma ListedLater(h: Host, cs: seq<Conn>, actions: seq<Action>, n: nat, c: nat, addrs: seq<seq<byte>>)
    requires actions != [] && Enabled(cs, actions[0])
    requires ListedAt(h, Next(h, cs, actions[0]), actions[1..], n, c, addrs)
    ensures ListedAt(h, cs, actions, n + 1, c, addrs)
  {
    assert actions[..n + 1][0] == actions[0] && actions[..n + 1][1..] == actions[1..][..n];
  }

  lemma {:induction false} FourthListsPeers(h: Host, cs: seq<Conn>, actions: seq<Action>, c: nat) returns (n: nat)
    requires Legal(h, cs, actions) && AllOk(h, cs) && (c < |cs| ==> |cs[c].wire| <= 3)
    requires c < |Run(h, cs, actions)| && |Run(h, cs, actions)[c].wire| > 3
    ensures var m := Run(h, cs, actions)[c].wire[3]; m.PeerList? && ListedAt(h, cs, actions, n, c, m.addrs)
    decreases |actions|
  {
    var next := Next(h, cs, actions[0]);
    if c < |next| && |next[c].wire| > 3 {
      n := 0;
      FourthIsWritten(h, cs, actions[0], c);
      WrittenStays(h, next, actions[1..], c);
      assert actions[..0] == [];
    } else {
      StepKeepsOk(h, cs, actions[0]);
      var k := FourthListsPeers(h, next, actions[1..], c);
      ListedLater(h, cs, actions, k, c, Run(h, cs, actions)[c].wire[3].addrs);
      n := k + 1;
    }
  }

  // In every run, the PEER_LIST a connection is sent names exactly the connections that were in
  // the peer table when it was written, each once; the new connection is not one of them yet.
  lemma PeerListNames(h: Host, actions: seq<Action>, c: nat) returns (n: nat)
    requires Legal(h, [], actions) && c < |Run(h, [], actions)| && |Run(h, [], actions)[c].wire| > 3
    ensures n <= |actions| && Legal(h, [], actions[..n])
    ensures var m, at := Run(h, [], actions)[c].wire[3], Run(h, [], actions[..n]);
            && c < |at| && !at[c].phase.Added?
            && m.PeerList? && |m.addrs| == |AddedConns(at)|
            && (forall a :: a in m.addrs <==> exists k :: k in AddedConns(at) && at[k].addr == a)
  {
    n := FourthListsPeers(h, [], actions, c);
    var m, at := Run(h, [], actions)[c].wire[3], Run(h, [], actions[..n]);
    var order :| Lists(order, AddedConns(at)) && m.addrs == Addrs(at, order);
    AddressesOf(at, order);
  }

  lemma AddressesOf(cs: seq<Conn>, order: seq<nat>)
    requires Lists(order, AddedConns(cs))
    ensures |Addrs(cs, order)| == |AddedConns(cs)|
    ensures forall a :: a in Addrs(cs, order) <==> exists k :: k in AddedConns(cs) && cs[k].addr == a
  {
    var addrs := Addrs(cs, order);
    ListsSize(order, AddedConns(cs));
    forall a | a in addrs
      ensures exists k :: k in AddedConns(cs) && cs[k].addr == a
    {
      var x :| 0 <= x < |addrs| && addrs[x] == a;
      assert order[x] in order;
    }
    forall k | k in AddedConns(cs)
      ensures cs[k].addr in addrs
    {
      assert k in order;
      var x :| 0 <= x < |order| && order[x] == k;
      assert addrs[x] == cs[k].addr;
    }
  }

  // ---------------------------------------------------------------- the joiner

  datatype Greeting = Greeting(host: PeerId, manifest: Message, bits: Option<seq<byte>>, addrs: seq<seq<byte>>)

  // What the joiner makes of the first four messages. A third message of another type than
  // BITFIELD is passed over.
  function Greeted(ms: seq<Message>): Option<Greeting>
    requires |ms| == 4
  {
    if ms[0].Handshake? && ms[1].Manifest? && ms[3].PeerList? then
      Some(Greeting(ms[0].peerId, ms[1], if ms[2].Bitfield? then Some(ms[2].bits) else None, ms[3].addrs))
    else None
  }

  // ConnectToHost's four reads, and the unread rest.
  ghost function GreetingOf(s: seq<byte>): Option<(Greeting, seq<byte>)> {
    GreetingIn(ReadMany(ReadOne, 4, s))
  }

  function GreetingIn(r: Option<(seq<Message>, seq<byte>)>): Option<(Greeting, seq<byte>)>
    requires r.Some? ==> |r.value.0| == 4
  {
    match r
    case None => None
    case Some((ms, rest)) => if Greeted(ms).None? then None else Some((Greeted(ms).value, rest))
  }

  // The reader is ReadMessage's. The proofs below use it without looking inside.
  ghost predicate IsReadOne(read: seq<byte> -> Option<(Message, seq<byte>)>) {
    forall s {:trigger ReadOne(s)} :: read(s) == ReadOne(s)
  }

  // One of n reads that are still to be made.
  method ReadNext(conn: Codec.Reader, ghost read: seq<byte> -> Option<(Message, seq<byte>)>, ghost n: nat)
    returns (m: Option<Message>)
    requires conn.Valid() && n > 0 && IsReadOne(read)
    modifies conn
    ensures conn.Valid()
    ensures ReadMany(read, n, conn.data[old(conn.pos)..]) ==
      if m.None? then None else Before(m.value, ReadMany(read, n - 1, conn.data[conn.pos..]))
  {
    m := Codec.ReadMessage(conn);
  }

  lemma BeforeIs<T>(x: T, r: Option<(seq<T>, seq<byte>)>, all: Option<(seq<T>, seq<byte>)>)
    requires all == Before(x, r)
    ensures all.Some? ==> r.Some? && all.value.0 == [x] + r.value.0 && all.value.1 == r.value.1
    ensures r.Some? ==> all.Some?
  {}

  // The first two reads: a HANDSHAKE and a MANIFEST, or no greeting.
  method ReadHead(conn: Codec.Reader, ghost read: seq<byte> -> Option<(Message, seq<byte>)>)
    returns (head: Option<(Message, Message)>)
    requires conn.Valid() && IsReadOne(read)
    modifies conn
    ensures conn.Valid()
    ensures var before := ReadMany(read, 4, conn.data[old(conn.pos)..]);
            var after := ReadMany(read, 2, conn.data[conn.pos..]);
            if head.None? then GreetingIn(before) == None
            else head.value.0.Handshake? && head.value.1.Manifest?
                 && before == Before(head.value.0, Before(head.value.1, after))
  {
    ghost var all := ReadMany(read, 4, conn.data[conn.pos..]);
    var hs := ReadNext(conn, read, 4);
    if hs.None? { return None; }
    ghost var after1 := ReadMany(read, 3, conn.data[conn.pos..]);
    BeforeIs(hs.value, after1, all);
    if !hs.value.Handshake? { return None; }
    var manifest := ReadNext(conn, read, 3);
    if manifest.None? { return None; }
    BeforeIs(manifest.value, ReadMany(read, 2, conn.data[conn.pos..]), after1);
    if !manifest.value.Manifest? { return None; }
    head := Some((hs.value, manifest.value));
  }

  // The other two: anything, and a PEER_LIST.
  method ReadTail(conn: Codec.Reader, ghost read: seq<byte> -> Option<(Message, seq<byte>)>)
    returns (tail: Option<(Message, Message)>)
    requires conn.Valid() && IsReadOne(read)
    modifies conn
    ensures conn.Valid()
    ensures var before := ReadMany(read, 2, conn.data[old(conn.pos)..]);
            if tail.None? then before.None? || !before.value.0[1].PeerList?
            else tail.value.1.PeerList? && before == Some(([tail.value.0, tail.value.1], conn.data[conn.pos..]))
  {
    ghost var all := ReadMany(read, 2, conn.data[conn.pos..]);
    var bf := ReadNext(conn, read, 2);
    if bf.None? { return None; }
    ghost var after1 := ReadMany(read, 1, conn.data[conn.pos..]);
    BeforeIs(bf.value, after1, all);
    var list := ReadNext(conn, read, 1);
    if list.None? { return None; }
    BeforeIs(list.value, ReadMany(read, 0, conn.data[conn.pos..]), after1);
    if !list.value.PeerList? { return None; }
    assert [bf.value] + ([list.value] + []) == [bf.value, list.value];
    tail := Some((bf.value, list.value));
  }

  lemma GreetingParts(hs: Message, m: Message, r: Option<(seq<Message>, seq<byte>)>)
    requires (r.Some? ==> |r.value.0| == 2) && hs.Handshake? && m.Manifest?
    ensures GreetingIn(Before(hs, Before(m, r))) ==
      if r.None? || !r.value.0[1].PeerList? then None
      else
        var b := r.value.0[0];
        Some((Greeting(hs.peerId, m, if b.Bitfield? then Some(b.bits) else None, r.value.0[1].addrs), r.value.1))
  {
    if r.Some? {
      assert [hs] + ([m] + r.value.0) == [hs, m, r.value.0[0], r.value.0[1]];
    }
  }

  method ConnectToHost(conn: Codec.Reader) returns (g: Option<Greeting>)
    requires conn.Valid()
    modifies conn
    ensures conn.Valid()
    ensures var spec := GreetingOf(conn.data[old(conn.pos)..]);
            && (g.Some? <==> spec.Some?)
            && (g.Some? ==> spec.value == (g.value, conn.data[conn.pos..]))
  {
    var head := ReadHead(conn, ReadOne);
    if head.None? { return None; }
    GreetingParts(head.value.0, head.value.1, ReadMany(ReadOne, 2, conn.data[conn.pos..]));
    var tail := ReadTail(conn, ReadOne);
    if tail.None? { return None; }
    var bits := if tail.value.0.Bitfield? then Some(tail.value.0.bits) else None;
    g := Some(Greeting(head.value.0.peerId, head.value.1, bits, tail.value.1.addrs));
  }

  // ---------------------------------------------------------------- both ends

  lemma SendableReads(read: seq<byte> -> Option<(Message, seq<byte>)>, enc: Message -> seq<byte>, m: Message)
    requires IsReadOne(read) && Sendable(m) && enc(m) == Frame(m)
    ensures Reads(read, enc, m)
  {
    forall tail, cut: nat | cut <= |enc(m)| + |tail|
      ensures ReadsAt(read, enc, m, tail, cut)
    {
      ReadCut(m, tail, cut);
    }
  }

  // The joiner's four reads of whatever part of a stream arrives.
  lemma FourReads(wire: seq<Message>, cut: nat)
    requires cut <= |Written(wire)| && forall k | 0 <= k < |wire| && k < 4 :: Sendable(wire[k])
    ensures var r := ReadMany(ReadOne, 4, Written(wire)[..cut]);
            && (r.Some? <==> |wire| >= 4 && cut >= |Written(wire[..4])|)
            && (r.Some? ==> r.value.0 == wire[..4] && Written(wire[..4]) + r.value.1 == Written(wire)[..cut])
  {
    forall k | 0 <= k < |wire| && k < 4
      ensures Reads(ReadOne, Frame, wire[k])
    {
      SendableReads(ReadOne, Frame, wire[k]);
    }
    ReadManyExactly(ReadOne, Frame, 4, wire, cut);
    if |wire| >= 4 {
      ConcatSplit(Frame, wire, 4);
    }
  }

  // Whatever part of the host's output reaches the joiner, the joiner is greeted exactly when the
  // first four frames arrived whole; it then has the host's ID, manifest and bitfield, and the
  // rest of the stream is left for its read loop. Otherwise the connection fails: no message of
  // another type is ever read in their place.
  lemma GreetedExactly(h: Host, actions: seq<Action>, c: nat, cut: nat)
    requires h.manifest.Manifest? && Legal(h, [], actions) && c < |Run(h, [], actions)|
    requires var wire := Run(h, [], actions)[c].wire;
             cut <= |Written(wire)| && forall k | 0 <= k < |wire| && k < 4 :: Sendable(wire[k])
    ensures var wire := Run(h, [], actions)[c].wire; var g := GreetingOf(Written(wire)[..cut]);
            && (g.Some? <==> |wire| >= 4 && cut >= |Written(wire[..4])|)
            && (g.Some? ==> g.value.0.host == h.self && g.value.0.manifest == h.manifest
                            && g.value.0.bits == Some(h.bits) && wire[3] == PeerList(g.value.0.addrs)
                            && Written(wire[..4]) + g.value.1 == Written(wire)[..cut])
  {
    GreetingFirst(h, actions, c);
    FourReads(Run(h, [], actions)[c].wire, cut);
  }
}
