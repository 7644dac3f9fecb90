/** Keeping the joiners' players in step with the host's (internal/sync/sync.go:51-145). Positions,
    speeds and drifts are reals in seconds. A query that fails and a command that has no effect
    are parameters, as is the clock. */
module Drift {
  import opened Bytes

  const STATE_PLAYING: byte := 0x01
  const STATE_PAUSED: byte := 0x00

  datatype SyncMsg = SyncMsg(playbackTime: real, state: byte, unixMs: int64)

  datatype Playback = Playback(paused: bool, position: real, speed: real)

  // Which queries are answered and which commands take effect.
  datatype Link = Link(pausedKnown: bool, timeKnown: bool, pauses: bool, seeks: bool, paces: bool)

  const PERFECT := Link(true, true, true, true, true)

  // ---------------------------------------------------------------- one message

  function Latency(nowMs: int64, sentMs: int64): real {
    var l := WrapInt64(nowMs - sentMs) as real / 1000.0;
    if l < 0.0 || l > 5.0 then 0.0 else l
  }

  // The correction for a drift from the target position.
  function Correct(p: Playback, target: real, link: Link): Playback {
    var drift := p.position - target;
    if drift > 2.0 || drift < -2.0 then
      Paced(if link.seeks then p.(position := target) else p, 1.0, link)
    else if drift < -0.5 then Paced(p, 1.05, link)
    else if drift > 0.5 then Paced(p, 0.95, link)
    else Paced(p, 1.0, link)
  }

  function Paced(p: Playback, speed: real, link: Link): Playback {
    if link.paces then p.(speed := speed) else p
  }

  function Handled(p: Playback, msg: SyncMsg, nowMs: int64, link: Link): Playback {
    var hostPaused := msg.state == STATE_PAUSED;
    if !link.pausedKnown then p
    else if hostPaused && !p.paused then
      var q := if link.pauses then p.(paused := true) else p;
      Paced(if link.seeks then q.(position := msg.playbackTime) else q, 1.0, link)
    else if hostPaused then p
    else
      var q := if p.paused && link.pauses then p.(paused := false) else p;
      if !link.timeKnown then q else Correct(q, msg.playbackTime + Latency(nowMs, msg.unixMs), link)
  }

  class Player {
    var paused: bool
    var position: real
    var speed: real

    ghost function Abs(): Playback
      reads this
    {
      Playback(paused, position, speed)
    }

    constructor (paused: bool, position: real, speed: real)
      ensures Abs() == Playback(paused, position, speed)
    {
      this.paused := paused;
      this.position := position;
      this.speed := speed;
    }

    method SetPaused(value: bool, works: bool)
      modifies this
      ensures Abs() == if works then old(Abs()).(paused := value) else old(Abs())
    {
      if works {
        paused := value;
      }
    }

    method Seek(to: real, works: bool)
      modifies this
      ensures Abs() == if works then old(Abs()).(position := to) else old(Abs())
    {
      if works {
        position := to;
      }
    }

    method SetSpeed(value: real, works: bool)
      modifies this
      ensures Abs() == if works then old(Abs()).(speed := value) else old(Abs())
    {
      if works {
        speed := value;
      }
    }
  }

  class SyncManager {
    const player: Player

    constructor (player: Player)
      ensures this.player == player
    {
      this.player := player;
    }

    // The host's periodic message, if its player answers.
    method HostMessage(nowMs: int64, link: Link) returns (msg: Option<SyncMsg>)
      ensures msg.Some? <==> link.timeKnown && link.pausedKnown
      ensures msg.Some? ==> msg.value.playbackTime == player.position && msg.value.unixMs == nowMs
      ensures msg.Some? ==> (msg.value.state == STATE_PAUSED <==> player.paused)
    {
      if !link.timeKnown {
        return None;
      }
      if !link.pausedKnown {
        return None;
      }
      var state := STATE_PLAYING;
      if player.paused {
        state := STATE_PAUSED;
      }
      msg := Some(SyncMsg(player.position, state, nowMs));
    }

    method HandleSync(msg: SyncMsg, nowMs: int64, link: Link)
      modifies player
      ensures player.Abs() == Handled(old(player.Abs()), msg, nowMs, link)
    {
      if !link.pausedKnown {
        return;
      }
      var paused := player.paused;
      var hostPaused := msg.state == STATE_PAUSED;
      if hostPaused && !paused {
        player.SetPaused(true, link.pauses);
        player.Seek(msg.playbackTime, link.seeks);
        player.SetSpeed(1.0, link.paces);
        return;
      } else if !hostPaused && paused {
        player.SetPaused(false, link.pauses);
      }
      if hostPaused {
        return;
      }
      if !link.timeKnown {
        return;
      }
      var pos := player.position;
      var latency := WrapInt64(nowMs - msg.unixMs) as real / 1000.0;
      if latency < 0.0 || latency > 5.0 {
        latency := 0.0;
      }
      var targetPos := msg.playbackTime + latency;
      var drift := pos - targetPos;
      if drift > 2.0 || drift < -2.0 {
        player.Seek(targetPos, link.seeks);
        player.SetSpeed(1.0, link.paces);
      } else if drift < -0.5 {
        player.SetSpeed(1.05, link.paces);
      } else if drift > 0.5 {
        player.SetSpeed(0.95, link.paces);
      } else {
        player.SetSpeed(1.0, link.paces);
      }
    }
  }

  // After a message the pause states agree exactly if they did before, or the player's state was
  // known and the pause command took effect.
  lemma PauseAgreesExactly(p: Playback, msg: SyncMsg, nowMs: int64, link: Link)
    ensures var hostPaused := msg.state == STATE_PAUSED;
            Handled(p, msg, nowMs, link).paused == hostPaused
            <==> p.paused == hostPaused || (link.pausedKnown && link.pauses)
  {}

  // A pause message leaves a running player standing exactly where the host stands, at normal
  // speed, if the commands work; without the seek it stands where it was, and without the pause it
  // goes on running.
  lemma PausesWhereTheHostIs(p: Playback, msg: SyncMsg, nowMs: int64, link: Link)
    requires msg.state == STATE_PAUSED && !p.paused && link.pausedKnown
    ensures var q := Handled(p, msg, nowMs, link);
            && q.paused == link.pauses
            && q.position == (if link.seeks then msg.playbackTime else p.position)
            && q.speed == (if link.paces then 1.0 else p.speed)
  {}

  // A player that is paused already is left alone by further pause messages, wherever it stands.
  lemma PausedIsLeftAlone(p: Playback, msg: SyncMsg, nowMs: int64, link: Link)
    requires msg.state == STATE_PAUSED && p.paused
    ensures Handled(p, msg, nowMs, link) == p
  {}

  // Which target a playing host's message gives.
  function TargetOf(msg: SyncMsg, nowMs: int64): real {
    msg.playbackTime + Latency(nowMs, msg.unixMs)
  }

  // A message of a playing host changes nothing if the pause state cannot be read. Otherwise it
  // resumes the player if that works; moves it exactly to the target, if the position can be read,
  // is more than two seconds off, and seeking works; and sets the speed for the tier if that works.
  lemma PlayMessageExactly(p: Playback, msg: SyncMsg, nowMs: int64, link: Link)
    requires msg.state != STATE_PAUSED
    ensures var q, x := Handled(p, msg, nowMs, link), p.position - TargetOf(msg, nowMs);
            && q.paused == (p.paused && !(link.pausedKnown && link.pauses))
            && q.position == (if link.pausedKnown && link.timeKnown && link.seeks && Abs(x) > 2.0
                              then TargetOf(msg, nowMs) else p.position)
            && q.speed == (if !(link.pausedKnown && link.timeKnown && link.paces) then p.speed
                           else if 0.5 < x <= 2.0 then 0.95
                           else if -2.0 <= x < -0.5 then 1.05
                           else 1.0)
  {}

  // ---------------------------------------------------------------- many messages

  // The local player and the host's, at the same instant. The host plays at normal speed, or is
  // paused.
  datatype Pair = Pair(local: Playback, host: real)

  function Gap(s: Pair): real {
    s.local.position - s.host
  }

  // h seconds pass.
  function Play(s: Pair, hostPaused: bool, h: real): Pair {
    Pair(s.local.(position := s.local.position + if s.local.paused then 0.0 else s.local.speed * h),
         s.host + if hostPaused then 0.0 else h)
  }

  // How far off the joiner's idea of the host's position is, for a message under way for
  // `latency` seconds while the joiner's clock is `skew` seconds ahead of the host's.
  function Bias(latency: real, skew: real): real {
    if 0.0 <= latency + skew <= 5.0 then skew else -latency
  }

  // One message: the host's state when it sent it and until the next, how long it was under way,
  // the two clocks, which player calls work, and the time until the next one.
  datatype Timing = Timing(hostPaused: bool, latency: real, nowMs: int64, sentMs: int64, link: Link, h: real)

  // What the host, where it is now, said when it sent the message.
  function Sent(s: Pair, t: Timing): SyncMsg {
    if t.hostPaused then SyncMsg(s.host, STATE_PAUSED, t.sentMs)
    else SyncMsg(s.host - t.latency, STATE_PLAYING, t.sentMs)
  }

  // The message reaches the joiner, and then h seconds pass.
  function Round(s: Pair, t: Timing): Pair {
    Play(s.(local := Handled(s.local, Sent(s, t), t.nowMs, t.link)), t.hostPaused, t.h)
  }

  // What one round does to the drift the joiner sees.
  function Step(seen: real, h: real): real {
    if seen > 2.0 || seen < -2.0 then 0.0
    else if seen < -0.5 then seen + 0.05 * h
    else if seen > 0.5 then seen - 0.05 * h
    else seen
  }

  // Clocks and latency as one message sees them.
  predicate Clocked(t: Timing, skew: real) {
    WrapInt64(t.nowMs - t.sentMs) as real / 1000.0 == t.latency + skew
  }

  // The message-handling code realises Step, on the drift shifted by the bias.
  lemma RoundIsStep(s: Pair, t: Timing, skew: real)
    requires Clocked(t, skew) && !t.hostPaused && t.link == PERFECT
    ensures var u := Round(s, t); var b := Bias(t.latency, skew);
            !u.local.paused && Gap(u) - b == Step(Gap(s) - b, t.h)
  {
    var target := s.host - t.latency + Latency(t.nowMs, t.sentMs);
    assert target == s.host + Bias(t.latency, skew);
    var q := Correct(s.local.(paused := false), target, PERFECT);
    assert Handled(s.local, Sent(s, t), t.nowMs, t.link) == q;
    SpeedTimes(q.speed, t.h);
  }

  lemma SpeedTimes(speed: real, h: real)
    ensures speed == 1.05 ==> speed * h == h + 0.05 * h
    ensures speed == 0.95 ==> speed * h == h - 0.05 * h
    ensures speed == 1.0 ==> speed * h == h
  {}

  function Abs(x: real): real {
    if x < 0.0 then -x else x
  }

  predicate InTolerance(x: real) {
    -0.5 <= x <= 0.5
  }

  // A drift inside the tolerance stays as it is; one outside is never carried past the tolerance
  // to the opposite tier.
  lemma NeverOvershoots(x: real, h: real)
    requires 0.0 < h <= 20.0
    ensures InTolerance(x) ==> Step(x, h) == x
    ensures x > 0.5 ==> -0.5 <= Step(x, h) < x
    ensures x < -0.5 ==> x < Step(x, h) <= 0.5
  {}

  function Total(hs: seq<real>): real {
    if hs == [] then 0.0 else hs[0] + Total(hs[1..])
  }

  function Steps(x: real, hs: seq<real>): real
    decreases |hs|
  {
    if hs == [] then x else Steps(Step(x, hs[0]), hs[1..])
  }

  predicate Intervals(hs: seq<real>) {
    forall h | h in hs :: 0.0 < h <= 20.0
  }

  lemma {:induction false} Shrinks(x: real, hs: seq<real>)
    requires Intervals(hs) && Abs(x) <= 2.0
    ensures var y := Steps(x, hs); Abs(y) <= 2.0 && (InTolerance(y) || Abs(y) <= Abs(x) - 0.05 * Total(hs))
    decreases |hs|
  {
    if hs != [] {
      assert hs[0] in hs && forall h | h in hs[1..] :: h in hs;
      NeverOvershoots(x, hs[0]);
      Shrinks(Step(x, hs[0]), hs[1..]);
      if InTolerance(Step(x, hs[0])) {
        StaysInTolerance(Step(x, hs[0]), hs[1..]);
      }
    }
  }

  lemma {:induction false} StaysInTolerance(x: real, hs: seq<real>)
    requires InTolerance(x)
    ensures Steps(x, hs) == x
    decreases |hs|
  {
    if hs != [] {
      StaysInTolerance(x, hs[1..]);
    }
  }

  // Any drift is inside the tolerance once messages at most 20 seconds apart have covered 30
  // seconds.
  lemma Converges(x: real, hs: seq<real>)
    requires Intervals(hs) && Total(hs) >= 30.0
    ensures InTolerance(Steps(x, hs))
  {
    if Abs(x) <= 2.0 {
      Shrinks(x, hs);
    } else {
      StaysInTolerance(0.0, hs[1..]);
    }
  }

  lemma {:induction false} TotalOfEqual(n: nat, h: real)
    ensures Total(seq(n, _ => h)) == n as real * h
  {
    if n > 0 {
      var hs, rest := seq(n, _ => h), seq(n - 1, _ => h);
      assert hs[1..] == rest;
      TotalOfEqual(n - 1, h);
      assert n as real * h == (n - 1) as real * h + h;
    }
  }

  // One message every 2 seconds: 15 are enough.
  lemma FifteenMessages(x: real)
    ensures InTolerance(Steps(x, seq(15, _ => 2.0)))
  {
    TotalOfEqual(15, 2.0);
    Converges(x, seq(15, _ => 2.0));
  }

  lemma {:induction false} SlowSteps(x: real, n: nat)
    requires n >= 1 && x <= 2.0 && x - 0.1 * (n - 1) as real > 0.5
    ensures Steps(x, seq(n, _ => 2.0)) == x - 0.1 * n as real
    decreases n
  {
    assert seq(n, _ => 2.0)[1..] == seq(n - 1, _ => 2.0);
    if n > 1 {
      SlowSteps(x - 0.1, n - 1);
    }
  }

  // And 14 are not, for the largest drift that is not corrected by seeking.
  lemma FourteenAreTooFew()
    ensures !InTolerance(Steps(2.0, seq(14, _ => 2.0)))
  {
    SlowSteps(2.0, 14);
  }

  // ---------------------------------------------------------------- the code over many rounds

  function Rounds(s: Pair, ts: seq<Timing>): Pair
    decreases |ts|
  {
    if ts == [] then s else Rounds(Round(s, ts[0]), ts[1..])
  }

  function Times(ts: seq<Timing>): seq<real> {
    if ts == [] then [] else [ts[0].h] + Times(ts[1..])
  }

  // The host plays, the player obeys, and all messages give the joiner the same wrong idea b of
  // where the host is; none, if b is 0.
  predicate SameBias(ts: seq<Timing>, skew: real, b: real) {
    forall t | t in ts :: Clocked(t, skew) && Bias(t.latency, skew) == b && !t.hostPaused && t.link == PERFECT
  }

  lemma {:induction false} RoundsAreSteps(s: Pair, ts: seq<Timing>, skew: real, b: real)
    requires SameBias(ts, skew, b)
    ensures Gap(Rounds(s, ts)) - b == Steps(Gap(s) - b, Times(ts))
    ensures ts != [] ==> !Rounds(s, ts).local.paused
    decreases |ts|
  {
    if ts != [] {
      assert ts[0] in ts && forall t | t in ts[1..] :: t in ts;
      RoundIsStep(s, ts[0], skew);
      RoundsAreSteps(Round(s, ts[0]), ts[1..], skew, b);
    }
  }

  // From any state of the local player, playing or paused, messages at most 20 seconds apart
  // that cover 30 seconds leave it playing within half a second of where it believes the host is.
  lemma SyncConverges(s: Pair, ts: seq<Timing>, skew: real, b: real)
    requires SameBias(ts, skew, b) && Intervals(Times(ts)) && Total(Times(ts)) >= 30.0
    ensures !Rounds(s, ts).local.paused && InTolerance(Gap(Rounds(s, ts)) - b)
  {
    RoundsAreSteps(s, ts, skew, b);
    Converges(Gap(s) - b, Times(ts));
  }

  // With agreeing clocks and latencies of at most 5 seconds, that is where the host is.
  lemma SyncedWithGoodClocks(s: Pair, ts: seq<Timing>)
    requires forall t | t in ts ::
      0.0 <= t.latency <= 5.0 && Clocked(t, 0.0) && !t.hostPaused && t.link == PERFECT
    requires Intervals(Times(ts)) && Total(Times(ts)) >= 30.0
    ensures !Rounds(s, ts).local.paused && InTolerance(Gap(Rounds(s, ts)))
  {
    SyncConverges(s, ts, 0.0, 0.0);
  }

  // With a steady latency above 5 seconds the correction for it is dropped, and the player
  // settles behind the host by that latency, give or take half a second.
  lemma SettlesBehind(s: Pair, ts: seq<Timing>, latency: real)
    requires latency > 5.0
    requires forall t | t in ts ::
      t.latency == latency && Clocked(t, 0.0) && !t.hostPaused && t.link == PERFECT
    requires Intervals(Times(ts)) && Total(Times(ts)) >= 30.0
    ensures InTolerance(Gap(Rounds(s, ts)) + latency) && !InTolerance(Gap(Rounds(s, ts)))
  {
    SyncConverges(s, ts, 0.0, -latency);
  }

  // ---------------------------------------------------------------- pauses

  // While the host is paused a paused player stays where it is, whatever works.
  lemma {:induction false} StaysPaused(s: Pair, ts: seq<Timing>)
    requires s.local.paused && forall t | t in ts :: t.hostPaused
    ensures Rounds(s, ts) == s
    decreases |ts|
  {
    if ts != [] {
      assert ts[0] in ts && forall t | t in ts[1..] :: t in ts;
      PausedIsLeftAlone(s.local, Sent(s, ts[0]), ts[0].nowMs, ts[0].link);
      assert Round(s, ts[0]) == s;
      StaysPaused(s, ts[1..]);
    }
  }

  // The host pauses while the player runs: if the commands for the first pause message work, both
  // stand at the same position from then on.
  lemma PausedTogether(s: Pair, ts: seq<Timing>)
    requires ts != [] && !s.local.paused && ts[0].link == PERFECT && forall t | t in ts :: t.hostPaused
    ensures var u := Rounds(s, ts);
            Gap(u) == 0.0 && u.host == s.host && u.local == Playback(true, s.host, 1.0)
  {
    assert ts[0] in ts && forall t | t in ts[1..] :: t in ts;
    PausesWhereTheHostIs(s.local, Sent(s, ts[0]), ts[0].nowMs, ts[0].link);
    StaysPaused(Round(s, ts[0]), ts[1..]);
  }

  // If only that seek fails, the player keeps its distance for as long as the host is paused: no
  // later pause message corrects it.
  lemma PausedApart(s: Pair, ts: seq<Timing>)
    requires ts != [] && !s.local.paused && ts[0].link == PERFECT.(seeks := false)
    requires forall t | t in ts :: t.hostPaused
    ensures var u := Rounds(s, ts); u.local.paused && Gap(u) == Gap(s)
  {
    assert ts[0] in ts && forall t | t in ts[1..] :: t in ts;
    PausesWhereTheHostIs(s.local, Sent(s, ts[0]), ts[0].nowMs, ts[0].link);
    StaysPaused(Round(s, ts[0]), ts[1..]);
  }

  lemma {:induction false} RoundsConcat(s: Pair, ts: seq<Timing>, us: seq<Timing>)
    ensures Rounds(s, ts + us) == Rounds(Rounds(s, ts), us)
    decreases |ts|
  {
    if ts == [] {
      assert ts + us == us;
    } else {
      assert (ts + us)[0] == ts[0] && (ts + us)[1..] == ts[1..] + us;
      RoundsConcat(Round(s, ts[0]), ts[1..], us);
    }
  }

  // Host and player play, however far apart, and then the host pauses: both stand together. This
  // holds from any state of the player, because a message of the playing host has started it.
  lemma PlayThenPause(s: Pair, plays: seq<Timing>, pauses: seq<Timing>)
    requires plays != [] && forall t | t in plays :: !t.hostPaused && t.link == PERFECT
    requires pauses != [] && pauses[0].link == PERFECT && forall t | t in pauses :: t.hostPaused
    ensures var u := Rounds(s, plays + pauses); u.local.paused && Gap(u) == 0.0
  {
    RoundsConcat(s, plays, pauses);
    PlaysOn(s, plays);
    PausedTogether(Rounds(s, plays), pauses);
  }

  lemma {:induction false} PlaysOn(s: Pair, ts: seq<Timing>)
    requires ts != [] && forall t | t in ts :: !t.hostPaused && t.link == PERFECT
    ensures !Rounds(s, ts).local.paused
    decreases |ts|
  {
    assert ts[0] in ts && forall t | t in ts[1..] :: t in ts;
    PlayMessageExactly(s.local, Sent(s, ts[0]), ts[0].nowMs, ts[0].link);
    if |ts| > 1 {
      PlaysOn(Round(s, ts[0]), ts[1..]);
    }
  }
}
