/** The stored chunks, the demanded ones and the cursor, read off the events of a run alone. */
module Records {
  import opened Engine
  import opened Runs

  predicate IsGoodPiece(e: Event, i: nat) {
    e.Piece? && e.index == i && e.good
  }

  // A good piece of the chunk came, from whomever.
  predicate Delivered(events: seq<Event>, i: nat) {
    exists e :: e in events && IsGoodPiece(e, i)
  }

  predicate Demanded(events: seq<Event>, i: nat) {
    Demand(i) in events
  }

  // Where the player was last said to be.
  function LastCursor(events: seq<Event>, start: int): int {
    if events == [] then start
    else
      match events[|events| - 1]
      case SetCursor(at) => at
      case _ => LastCursor(events[..|events| - 1], start)
  }

  lemma DeliveredOneMore(init: seq<Event>, e: Event, i: nat)
    ensures Delivered(init + [e], i) <==> Delivered(init, i) || IsGoodPiece(e, i)
    ensures Demanded(init + [e], i) <==> Demanded(init, i) || e == Demand(i)
  {
    if IsGoodPiece(e, i) {
      assert e in init + [e];
    }
    if Delivered(init, i) {
      var d :| d in init && IsGoodPiece(d, i);
      assert d in init + [e];
    }
  }

  lemma OneStep(s: State, e: Event, i: nat)
    requires i < |s.avail| && (i in s.urgent ==> i !in s.have)
    ensures var t := Next(s, e);
            && |t.avail| == |s.avail|
            && (i in t.have <==> i in s.have || IsGoodPiece(e, i))
            && (i in t.urgent <==> i !in t.have && (i in s.urgent || e == Demand(i)))
            && t.cursor == if e.SetCursor? then e.at else s.cursor
  {}

  // Over every run, exactly the chunks of which a good piece came are stored; of the others,
  // exactly those demanded at any time are urgent; and the cursor is where it was last set.
  lemma {:induction false} RunRecords(s0: State, events: seq<Event>, i: nat)
    requires Initial(s0) && Legal(s0, events) && i < |s0.avail|
    ensures var s := Run(s0, events);
            && |s.avail| == |s0.avail|
            && (i in s.have <==> Delivered(events, i))
            && (i in s.urgent <==> !Delivered(events, i) && Demanded(events, i))
            && s.cursor == LastCursor(events, s0.cursor)
    decreases |events|
  {
    if events != [] {
      var init, e := events[..|events| - 1], events[|events| - 1];
      assert events == init + [e];
      RunInit(s0, events);
      RunRecords(s0, init, i);
      OneStep(Run(s0, init), e, i);
      DeliveredOneMore(init, e, i);
    }
  }
}
