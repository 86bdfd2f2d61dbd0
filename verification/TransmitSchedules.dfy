/** What any schedule of ready inputs, poll errors, timeouts and stop requests makes of a transmission. */
module TransmitSchedules {
  import opened Machine
  import opened Sequences
  import opened TransmitterModel
  import opened Transmission

  // ---------- The pieces in which a ready input is read ----------

  /** As much as limit, block size and input allow, but at least one byte. */
  function PieceSize(blockSize: nat, limit: nat, input: seq<byte>): (n: nat)
    ensures n <= |input|
  {
    var allowed := if limit > 0 then limit else 1;
    if |input| <= blockSize && |input| <= allowed then |input| else if allowed <= blockSize then allowed else blockSize
  }

  /** One piece for every limit while there is input. */
  function Pieces(blockSize: nat, limits: seq<nat>, input: seq<byte>): seq<seq<byte>>
    decreases limits
  {
    if limits == [] || input == [] then []
    else
      var n := PieceSize(blockSize, limits[0], input);
      [input[..n]] + Pieces(blockSize, limits[1..], input[n..])
  }

  /** What these pieces leave of the input. */
  function LeftOver(blockSize: nat, limits: seq<nat>, input: seq<byte>): (r: seq<byte>)
    ensures |r| <= |input|
    decreases limits
  {
    if limits == [] || input == [] then input
    else LeftOver(blockSize, limits[1..], input[PieceSize(blockSize, limits[0], input)..])
  }

  lemma {:induction false} PiecesAreInput(blockSize: nat, limits: seq<nat>, input: seq<byte>)
    ensures Concat(Pieces(blockSize, limits, input)) + LeftOver(blockSize, limits, input) == input
    decreases limits
  {
    if limits != [] && input != [] {
      var n := PieceSize(blockSize, limits[0], input);
      var pieces, left := Pieces(blockSize, limits[1..], input[n..]), LeftOver(blockSize, limits[1..], input[n..]);
      PiecesAreInput(blockSize, limits[1..], input[n..]);
      assert input == input[..n] + input[n..] && ([input[..n]] + pieces)[1..] == pieces;
      Associative(input[..n], Concat(pieces), left);
    }
  }

  /** The limits of the turns that find the input ready. */
  function Limits(events: seq<TxEvent>): seq<nat> {
    if events == [] then [] else (if events[0].TxReady? then [events[0].limit] else []) + Limits(events[1..])
  }

  lemma LimitsCons(e: TxEvent, later: seq<TxEvent>)
    ensures Limits([e] + later) == if e.TxReady? then [e.limit] + Limits(later) else Limits(later)
  {
    assert ([e] + later)[1..] == later && [] + Limits(later) == Limits(later);
  }

  // ---------- Schedules without stop requests and timeouts ----------

  /** Ready inputs and poll errors without a stop request. */
  ghost predicate Steady(events: seq<TxEvent>) {
    forall e :: e in events ==> e == TxPollError(false) || (e.TxReady? && !e.stop)
  }

  /** The loop is going on, or about to read for the first time. */
  predicate Reads(p: TxProgress, events: seq<TxEvent>) {
    p.activated && (p.prevRead > 0 || events == [] || events[0].TxReady?)
  }

  lemma ReadyTurn(blockSize: nat, limit: nat, stop: bool, later: seq<nat>, p: TxProgress)
    requires blockSize > 0
    ensures var q := TxTurn(blockSize, TxReady(limit, stop), p);
            && q.activated == !stop && q.status == p.status
            && (q.prevRead > 0 <==> p.unread != []) && |q.unread| <= |p.unread|
            && q.blocks + Pieces(blockSize, later, q.unread) == p.blocks + Pieces(blockSize, [limit] + later, p.unread)
            && LeftOver(blockSize, later, q.unread) == LeftOver(blockSize, [limit] + later, p.unread)
  {
    var n := ReadSize(blockSize, limit, p.unread);
    assert ([limit] + later)[1..] == later;
    if p.unread != [] {
      Associative(p.blocks, [p.unread[..n]], Pieces(blockSize, later, p.unread[n..]));
    }
  }

  /**
   An input that is always ready is sent whole, in pieces as they come and full blocks behind them, with
   poll errors as well as without, unless a poll error comes before the first read.
   */
  lemma {:induction false} SteadyLoopSendsAll(blockSize: nat, events: seq<TxEvent>, p: TxProgress)
    requires blockSize > 0 && Steady(events) && Reads(p, events)
    ensures var q := TxLoop(blockSize, events, p);
            && q.unread == [] && q.activated
            && q.blocks == p.blocks + Pieces(blockSize, Limits(events), p.unread)
                         + Chunks(blockSize, LeftOver(blockSize, Limits(events), p.unread))
            && (q.status == p.status || (q.status == TxError && TxPollError(false) in events))
    decreases |events|
  {
    if events == [] {
      FullReadsMakeChunks(blockSize, p);
      FullReadsReadAll(blockSize, p);
      assert p.blocks + [] == p.blocks;
    } else {
      var e, later := events[0], events[1..];
      var next := TxTurn(blockSize, e, p);
      assert e in events && events == [e] + later;
      LimitsCons(e, later);
      if e.TxReady? {
        ReadyTurn(blockSize, e.limit, false, Limits(later), p);
        if p.unread == [] {
          assert p.blocks + [] + [] == p.blocks;
        } else {
          SteadyLoopSendsAll(blockSize, later, next);
        }
      } else {
        SteadyLoopSendsAll(blockSize, later, next);
      }
    }
  }

  lemma {:induction false} FullReadsReadAll(blockSize: nat, p: TxProgress)
    requires blockSize > 0 && p.activated
    ensures TxLoop(blockSize, [], p).unread == []
    decreases |p.unread|
  {
    if p.unread != [] {
      FullReadsReadAll(blockSize, TxTurn(blockSize, NextEvent(blockSize, []), p));
    }
  }

  /** Short reads do not matter: whatever the limits, the whole input is sent, and the state is normal. */
  lemma ReadyInputIsSent(blockSize: nat, events: seq<TxEvent>, input: seq<byte>)
    requires blockSize > 0 && forall e :: e in events ==> e.TxReady? && !e.stop
    ensures var p := TxLoop(blockSize, events, Start(input));
            && p.unread == [] && Concat(p.blocks) == input && p.activated
            && p.blocks == Pieces(blockSize, Limits(events), input)
                         + Chunks(blockSize, LeftOver(blockSize, Limits(events), input))
            && FinalStatus(p, false) == TxNormal && FinalStatus(p, true) == TxDeactivated
  {
    var pieces := Pieces(blockSize, Limits(events), input);
    assert events != [] ==> events[0] in events;
    SteadyLoopSendsAll(blockSize, events, Start(input));
    DataIsPrefixOfInput(blockSize, events, input);
    assert [] + pieces == pieces;
    var p := TxLoop(blockSize, events, Start(input));
    assert Concat(p.blocks) + [] == Concat(p.blocks);
  }

  // ---------- How a transmission ends ----------

  /** Every ready turn among these events finds something to read. */
  predicate AllFindInput(blockSize: nat, events: seq<TxEvent>, input: seq<byte>) {
    |Pieces(blockSize, Limits(events), input)| == |Limits(events)|
  }

  /** `q` is where the loop stands behind such events. */
  ghost predicate StandsBehind(q: TxProgress, p: TxProgress, blockSize: nat, events: seq<TxEvent>) {
    && q.activated && (if events == [] then q == p else q.prevRead > 0)
    && q.blocks == p.blocks + Pieces(blockSize, Limits(events), p.unread)
    && q.unread == LeftOver(blockSize, Limits(events), p.unread)
    && q.status == if TxPollError(false) in events then TxError else p.status
  }

  lemma {:induction false} SteadyEventsGoOn(blockSize: nat, events: seq<TxEvent>, tail: seq<TxEvent>, p: TxProgress)
    returns (q: TxProgress)
    requires blockSize > 0 && Steady(events) && Reads(p, events) && AllFindInput(blockSize, events, p.unread)
    ensures TxLoop(blockSize, events + tail, p) == TxLoop(blockSize, tail, q)
    ensures StandsBehind(q, p, blockSize, events)
    decreases |events|
  {
    if events == [] {
      q := p;
      assert events + tail == tail && p.blocks + [] == p.blocks;
    } else {
      var e, later := events[0], events[1..];
      var next := TxTurn(blockSize, e, p);
      assert e in events && events == [e] + later && (events + tail)[1..] == later + tail;
      LimitsCons(e, later);
      if e.TxReady? {
        ReadyTurn(blockSize, e.limit, false, Limits(later), p);
      }
      q := SteadyEventsGoOn(blockSize, later, tail, next);
    }
  }

  /**
   `e` ends the loop behind steady events: a timeout, a stop request, a ready turn that finds the end of
   the input, or a poll error ahead of the first read.
   */
  ghost predicate EndsTransmission(blockSize: nat, events: seq<TxEvent>, e: TxEvent, input: seq<byte>) {
    && Steady(events) && (events != [] ==> events[0].TxReady?) && AllFindInput(blockSize, events, input)
    && (e.TxTimeout? || e.stop || (e.TxReady? && LeftOver(blockSize, Limits(events), input) == [])
        || (events == [] && e == TxPollError(false)))
  }

  /** The state that is reported then; a stop request does not cover up an earlier poll error. */
  function FinalState(events: seq<TxEvent>, e: TxEvent, lateStop: bool): TxStatus {
    match e
    case TxTimeout => TxTimedOut
    case TxPollError(stop) => if stop then TxDeactivated else TxError
    case TxReady(_, stop) =>
      if TxPollError(false) in events then TxError else if stop || lateStop then TxDeactivated else TxNormal
  }

  lemma FinalTurn(blockSize: nat, events: seq<TxEvent>, e: TxEvent, b: seq<TxEvent>, input: seq<byte>, q: TxProgress)
    requires blockSize > 0 && EndsTransmission(blockSize, events, e, input)
    requires StandsBehind(q, Start(input), blockSize, events)
    ensures TxLoop(blockSize, [e] + b, q) == TxTurn(blockSize, e, q)
  {
    assert ([e] + b)[0] == e;
  }

  lemma LastStatus(blockSize: nat, events: seq<TxEvent>, e: TxEvent, input: seq<byte>, q: TxProgress, lateStop: bool)
    requires blockSize > 0 && EndsTransmission(blockSize, events, e, input)
    requires StandsBehind(q, Start(input), blockSize, events)
    ensures FinalStatus(TxTurn(blockSize, e, q), lateStop) == FinalState(events, e, lateStop)
  {
  }

  lemma LastPiece(blockSize: nat, events: seq<TxEvent>, e: TxEvent, input: seq<byte>, q: TxProgress)
    requires blockSize > 0 && AllFindInput(blockSize, events, input)
    requires StandsBehind(q, Start(input), blockSize, events)
    ensures TxTurn(blockSize, e, q).blocks == Pieces(blockSize, Limits(events + [e]), input)
  {
    var pieces := Pieces(blockSize, Limits(events), input);
    assert [] + pieces == pieces;
    LimitsSnoc(events, e);
    if e.TxReady? {
      PiecesAppend(blockSize, Limits(events), [e.limit], input);
      ReadyTurn(blockSize, e.limit, e.stop, [], q);
      assert [e.limit] + [] == [e.limit];
      assert TxTurn(blockSize, e, q).blocks + [] == TxTurn(blockSize, e, q).blocks;
    } else {
      assert Limits(events) + [] == Limits(events);
    }
  }

  /** The transmission ends with that turn; if the turn finds the input ready, its block is still sent. */
  lemma TransmissionEndsThere(blockSize: nat, events: seq<TxEvent>, e: TxEvent, b: seq<TxEvent>, input: seq<byte>,
                              lateStop: bool)
    requires blockSize > 0 && EndsTransmission(blockSize, events, e, input)
    ensures var p := TxLoop(blockSize, events + [e] + b, Start(input));
            && p.blocks == Pieces(blockSize, Limits(events + [e]), input)
            && FinalStatus(p, lateStop) == FinalState(events, e, lateStop)
  {
    assert events + [e] + b == events + ([e] + b);
    var q := SteadyEventsGoOn(blockSize, events, [e] + b, Start(input));
    FinalTurn(blockSize, events, e, b, input, q);
    LastStatus(blockSize, events, e, input, q, lateStop);
    LastPiece(blockSize, events, e, input, q);
  }

  lemma {:induction false} LimitsSnoc(events: seq<TxEvent>, e: TxEvent)
    ensures Limits(events + [e]) == Limits(events) + if e.TxReady? then [e.limit] else []
  {
    if events == [] {
      LimitsCons(e, []);
      assert [] + [e] == [e] && [e] + [] == [e];
    } else {
      var first, later := events[0], events[1..];
      assert events == [first] + later && events + [e] == [first] + (later + [e]);
      LimitsSnoc(later, e);
      LimitsCons(first, later);
      LimitsCons(first, later + [e]);
    }
  }

  lemma {:induction false} PiecesAppend(blockSize: nat, a: seq<nat>, b: seq<nat>, input: seq<byte>)
    requires |Pieces(blockSize, a, input)| == |a|
    ensures Pieces(blockSize, a + b, input)
         == Pieces(blockSize, a, input) + Pieces(blockSize, b, LeftOver(blockSize, a, input))
    decreases a
  {
    if a == [] {
      assert a + b == b;
    } else {
      var n := PieceSize(blockSize, a[0], input);
      assert (a + b)[1..] == a[1..] + b;
      PiecesAppend(blockSize, a[1..], b, input[n..]);
    }
  }

  /** Otherwise it ends with the input: full reads behind the schedule send the rest. */
  lemma TransmissionEndsWithInput(blockSize: nat, events: seq<TxEvent>, input: seq<byte>, lateStop: bool)
    requires blockSize > 0 && Steady(events) && (events != [] ==> events[0].TxReady?)
    requires AllFindInput(blockSize, events, input)
    ensures var p := TxLoop(blockSize, events, Start(input));
            && Concat(p.blocks) == input
            && p.blocks == Pieces(blockSize, Limits(events), input)
                         + Chunks(blockSize, LeftOver(blockSize, Limits(events), input))
            && FinalStatus(p, lateStop) == FinalState(events, TxReady(blockSize, false), lateStop)
  {
    var p, pieces := TxLoop(blockSize, events, Start(input)), Pieces(blockSize, Limits(events), input);
    assert [] + pieces == pieces && events + [] == events;
    var q := SteadyEventsGoOn(blockSize, events, [], Start(input));
    FullReadsMakeChunks(blockSize, q);
    SteadyLoopSendsAll(blockSize, events, Start(input));
    DataIsPrefixOfInput(blockSize, events, input);
    assert Concat(p.blocks) + [] == Concat(p.blocks);
  }

  /** There is no third way. */
  lemma {:induction false} EveryTransmissionEnds(blockSize: nat, events: seq<TxEvent>, input: seq<byte>, k: nat)
    requires k <= |events| && Steady(events[..k]) && (k > 0 ==> events[0].TxReady?)
    requires blockSize > 0 && AllFindInput(blockSize, events[..k], input)
    ensures (Steady(events) && (events != [] ==> events[0].TxReady?) && AllFindInput(blockSize, events, input))
         || exists n :: 0 <= n < |events| && EndsTransmission(blockSize, events[..n], events[n], input)
    decreases |events| - k
  {
    if k == |events| {
      assert events[..k] == events;
    } else if !EndsTransmission(blockSize, events[..k], events[k], input) {
      assert events[..k + 1] == events[..k] + [events[k]];
      OneMoreFinds(blockSize, events[..k], events[k], input);
      EveryTransmissionEnds(blockSize, events, input, k + 1);
    }
  }

  lemma OneMoreFinds(blockSize: nat, events: seq<TxEvent>, e: TxEvent, input: seq<byte>)
    requires AllFindInput(blockSize, events, input)
    requires e.TxReady? ==> LeftOver(blockSize, Limits(events), input) != []
    ensures AllFindInput(blockSize, events + [e], input)
  {
    LimitsSnoc(events, e);
    if e.TxReady? {
      PiecesAppend(blockSize, Limits(events), [e.limit], input);
    } else {
      assert Limits(events) + [] == Limits(events);
    }
  }

  /** A poll error ahead of the first read ends the transmission before anything is sent. */
  lemma PollErrorFirst(blockSize: nat, b: seq<TxEvent>, input: seq<byte>, lateStop: bool)
    requires blockSize > 0
    ensures var p := TxLoop(blockSize, [TxPollError(false)] + b, Start(input));
            p.blocks == [] && FinalStatus(p, lateStop) == TxError
  {
    var e := TxPollError(false);
    assert [] + [e] + b == [e] + b && [] + [e] == [e];
    TransmissionEndsThere(blockSize, [], e, b, input, lateStop);
  }

  /** Behind the first block it stops nothing: the same blocks are sent, but the state is an error. */
  lemma PollErrorBehindBlock(blockSize: nat, a: seq<TxEvent>, b: seq<TxEvent>, input: seq<byte>, lateStop: bool)
    requires blockSize > 0 && a != [] && (forall e :: e in a + b ==> e.TxReady? && !e.stop)
    requires AllFindInput(blockSize, a, input)
    ensures var p := TxLoop(blockSize, a + [TxPollError(false)] + b, Start(input));
            && p.blocks == TxLoop(blockSize, a + b, Start(input)).blocks && Concat(p.blocks) == input
            && FinalStatus(p, lateStop) == TxError
  {
    var e := TxPollError(false);
    assert forall x :: x in a + b <==> x in a || x in b;
    assert a + [e] + b == a + ([e] + b) && ([e] + b)[0] == e && ([e] + b)[1..] == b && a[0] in a;
    var q := SteadyEventsGoOn(blockSize, a, [e] + b, Start(input));
    var r := SteadyEventsGoOn(blockSize, a, b, Start(input));
    SameReading(blockSize, b, r, TxTurn(blockSize, e, q));
    assert (a + b)[0] == a[0];
    ReadyInputIsSent(blockSize, a + b, input);
  }

  /** The status plays no part in what is read. */
  lemma {:induction false} SameReading(blockSize: nat, events: seq<TxEvent>, p: TxProgress, q: TxProgress)
    requires Steady(events)
    requires p.blocks == q.blocks && p.unread == q.unread && p.prevRead > 0 && q.prevRead > 0
    requires p.activated && q.activated && q.status == TxError
    ensures TxLoop(blockSize, events, p).blocks == TxLoop(blockSize, events, q).blocks
    ensures TxLoop(blockSize, events, q).status == TxError && TxLoop(blockSize, events, q).activated
    decreases |events|, |p.unread|
  {
    var e := NextEvent(blockSize, events);
    assert events != [] ==> e in events;
    if GoesOn(TxTurn(blockSize, e, p)) {
      SameReading(blockSize, LaterEvents(events), TxTurn(blockSize, e, p), TxTurn(blockSize, e, q));
    }
  }
}
