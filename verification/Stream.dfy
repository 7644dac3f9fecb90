/** Reading framed messages off a byte stream (internal/protocol/codec.go:75-124), and what a
    reader gets from a stream that was cut short. */
module Stream {
  import opened Bytes
  import opened Wire

  // One ReadMessage call: the message and the unread rest, or None for any error.
  ghost function ReadOne(s: seq<byte>): Option<(Message, seq<byte>)> {
    if |s| < 4 then None
    else
      var length := GetBE(s[..4]);
      if length == 0 || length > MAX_MESSAGE_SIZE || |s| < 4 + length then None
      else
        match Reading(s[4], s[5..4 + length])
        case None => None
        case Some(m) => Some((m, s[4 + length..]))
  }

  // Repeated ReadMessage calls up to the first error.
  ghost function ReadAll(s: seq<byte>): seq<Message>
    decreases |s|
  {
    match ReadOne(s)
    case None => []
    case Some((m, rest)) => [m] + ReadAll(rest)
  }

  // What writing the messages one after another puts on the stream.
  ghost function Written(ms: seq<Message>): seq<byte> {
    Concat(Frame, ms)
  }

  // How many of the frames lie wholly before the cut.
  ghost function WholeFrames(ms: seq<Message>, cut: nat): (k: nat)
    ensures k <= |ms|
  {
    if ms == [] || cut < |Frame(ms[0])| then 0
    else 1 + WholeFrames(ms[1..], cut - |Frame(ms[0])|)
  }

  lemma FrameParts(m: Message, tail: seq<byte>)
    ensures var s := Frame(m) + tail; var n := |Payload(m)|;
            && |Frame(m)| == 5 + n && s[..4] == PutBE(4, 1 + n) && s[4] == TypeCode(m)
            && s[5..5 + n] == Payload(m) && s[5 + n..] == tail
  {}

  lemma ReadsBack(m: Message, rest: seq<byte>)
    requires Sendable(m)
    ensures ReadOne(Frame(m) + rest) == Some((m, rest))
  {
    var s := Frame(m) + rest;
    FrameParts(m, rest);
    Widths();
    GetPut(4, 1 + |Payload(m)|);
    ReadingIs(s[4], s[5..5 + |Payload(m)|], m);
  }

  // A written message comes back, with the rest of the stream untouched, exactly when its counts
  // and lengths fit their fields and its frame is within the size limit.
  lemma RoundTripExactly(m: Message, rest: seq<byte>)
    ensures ReadOne(Frame(m) + rest) == Some((m, rest)) <==> Sendable(m)
  {
    FrameParts(m, rest);
    GetPutExactly(4, 1 + |Payload(m)|);
    if Sendable(m) {
      ReadsBack(m, rest);
    }
  }

  // Whatever ReadMessage returns was really there: the type byte is the message's, and its
  // encoding starts the payload of a frame of legal length.
  lemma ReadSound(s: seq<byte>)
    requires ReadOne(s).Some?
    ensures var (m, rest) := ReadOne(s).value; var length := GetBE(s[..4]);
            && 0 < length <= MAX_MESSAGE_SIZE && |s| == 4 + length + |rest| && s[4 + length..] == rest
            && Sendable(m) && s[4] == TypeCode(m) && Payload(m) <= s[5..4 + length]
            && (m.Bitfield? || m.Piece? ==> Payload(m) == s[5..4 + length])
  {}

  lemma CutInsideFrame(m: Message, s: seq<byte>)
    requires Sendable(m) && s <= Frame(m) && |s| < |Frame(m)|
    ensures ReadOne(s) == None
  {
    if |s| >= 4 {
      FrameLength(m, s);
    }
    TooShort(s);
  }

  lemma FrameLength(m: Message, s: seq<byte>)
    requires Sendable(m) && s <= Frame(m) && |s| >= 4
    ensures 4 + GetBE(s[..4]) == |Frame(m)|
  {
    assert s[..4] == Frame(m)[..4] == PutBE(4, 1 + |Payload(m)|);
    Widths();
    GetPut(4, 1 + |Payload(m)|);
  }

  lemma TooShort(s: seq<byte>)
    requires |s| < 4 || |s| < 4 + GetBE(s[..4])
    ensures ReadOne(s) == None
  {}

  // A frame followed by more, cut somewhere, gives its message, or nothing if the cut is inside.
  lemma ReadCut(m: Message, tail: seq<byte>, cut: nat)
    requires Sendable(m) && cut <= |Frame(m)| + |tail|
    ensures ReadOne((Frame(m) + tail)[..cut]) ==
      if cut < |Frame(m)| then None else Some((m, tail[..cut - |Frame(m)|]))
  {
    if cut < |Frame(m)| {
      assert (Frame(m) + tail)[..cut] == Frame(m)[..cut];
      CutInsideFrame(m, Frame(m)[..cut]);
    } else {
      assert (Frame(m) + tail)[..cut] == Frame(m) + tail[..cut - |Frame(m)|];
      ReadsBack(m, tail[..cut - |Frame(m)|]);
    }
  }

  lemma ReadAllStep(s: seq<byte>, m: Message, rest: seq<byte>)
    requires ReadOne(s) == Some((m, rest))
    ensures |rest| < |s| && ReadAll(s) == [m] + ReadAll(rest)
  {}

  lemma FirstRead(ms: seq<Message>, cut: nat)
    requires ms != [] && Sendable(ms[0]) && cut <= |Written(ms)|
    ensures var k := |Frame(ms[0])|;
            ReadAll(Written(ms)[..cut]) ==
            if cut < k then [] else [ms[0]] + ReadAll(Written(ms[1..])[..cut - k])
  {
    var m, tail := ms[0], Written(ms[1..]);
    assert Written(ms) == Frame(m) + tail;
    ReadCut(m, tail, cut);
    if cut >= |Frame(m)| {
      ReadAllStep((Frame(m) + tail)[..cut], m, tail[..cut - |Frame(m)|]);
    }
  }

  lemma OneMoreTaken<T>(xs: seq<T>, n: nat)
    requires n < |xs|
    ensures [xs[0]] + xs[1..][..n] == xs[..n + 1]
  {}

  // For every list of sendable messages and every cut of the bytes they were written as, the
  // reader gets exactly the messages whose frames lie wholly before the cut, in order, and then
  // an error.
  lemma {:induction false} TruncatedRoundTrip(ms: seq<Message>, cut: nat)
    requires forall m | m in ms :: Sendable(m)
    requires cut <= |Written(ms)|
    ensures ReadAll(Written(ms)[..cut]) == ms[..WholeFrames(ms, cut)]
  {
    if ms != [] {
      FirstRead(ms, cut);
      var k := |Frame(ms[0])|;
      if cut >= k {
        TruncatedRoundTrip(ms[1..], cut - k);
        OneMoreTaken(ms, WholeFrames(ms[1..], cut - k));
      }
    }
  }

  lemma {:induction false} WholeFramesOfAll(ms: seq<Message>)
    ensures WholeFrames(ms, |Written(ms)|) == |ms|
  {
    if ms != [] {
      WholeFramesOfAll(ms[1..]);
    }
  }

  // Without a cut, everything written is read.
  lemma StreamRoundTrip(ms: seq<Message>)
    requires forall m | m in ms :: Sendable(m)
    ensures ReadAll(Written(ms)) == ms
  {
    TruncatedRoundTrip(ms, |Written(ms)|);
    WholeFramesOfAll(ms);
    assert Written(ms)[..|Written(ms)|] == Written(ms);
  }
}
