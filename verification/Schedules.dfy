/** A capture under any schedule of events is one run over the frames that it saw. */
module Schedules {
  import opened Machine
  import opened Wire
  import opened Heap
  import opened ReceiverModel
  import opened Windows
  import opened Delivery
  import opened Splitting

  /**
   The frames that a capture sees when it has counted `packets` before: those of all dispatches up to the
   first timeout, the first stop request, or the dispatch that brings the preamble of the next file.
   */
  function Seen(packets: uint32, events: seq<RxEvent>): seq<Frame>
    decreases |events|
  {
    if events == [] then []
    else
      match events[0]
      case Timeout => []
      case PollError(stop) => if stop then [] else Seen(packets, events[1..])
      case Dispatch(frames, stop) =>
        frames + if stop || EndsIn(packets, frames) then [] else Seen(CountedAll(packets, frames), events[1..])
  }

  // ---------- The status takes no part in a run ----------

  function Marked(sink: Sink, status: RxStatus): Sink {
    sink.(stats := sink.stats.(status := status))
  }

  lemma {:induction false} WriteNoiseMarked(sink: Sink, status: RxStatus, count: int, size: nat, v: byte)
    ensures WriteNoise(Marked(sink, status), count, size, v) == Marked(WriteNoise(sink, count, size, v), status)
    decreases count
  {
    if count > 0 {
      WriteNoiseMarked(Noise(sink, size, v), status, count - 1, size, v);
    }
  }

  lemma EmitMarked(cfg: RxConfig, expected: int, item: Item, sink: Sink, status: RxStatus)
    ensures Emit(cfg, expected, item, Marked(sink, status)) == Marked(Emit(cfg, expected, item, sink), status)
  {
    WriteNoiseMarked(sink, status, Missing(cfg, expected, item.number), |item.payload|, cfg.noiseValue);
  }

  lemma {:induction false} EmitAllMarked(cfg: RxConfig, expected: int, items: seq<Item>, sink: Sink, status: RxStatus)
    ensures EmitAll(cfg, expected, items, Marked(sink, status)) == Marked(EmitAll(cfg, expected, items, sink), status)
    decreases items
  {
    if items != [] {
      EmitMarked(cfg, expected, items[0], sink, status);
      EmitAllMarked(cfg, Int32(items[0].number + 1), items[1..], Emit(cfg, expected, items[0], sink), status);
    }
  }

  lemma DumpMarked(cfg: RxConfig, s: RxState, status: RxStatus)
    ensures Dump(cfg, s.WithStatus(status)) == Dump(cfg, s).WithStatus(status)
  {
    var order := HeapOrder(ByNumber, s.pending);
    if order != [] {
      EmitAllMarked(cfg, order[0].number, order, s.sink, status);
    }
  }

  lemma StepMarked(cfg: RxConfig, s: RxState, status: RxStatus, f: Frame)
    ensures Step(cfg, s.WithStatus(status), f) == Step(cfg, s, f).WithStatus(status)
  {
    DumpMarked(cfg, s, status);
    StoreMarked(cfg, s, status, f);
    StoreMarked(cfg, Dump(cfg, s), status, f);
  }

  lemma StoreMarked(cfg: RxConfig, s: RxState, status: RxStatus, f: Frame)
    ensures Store(cfg, s.WithStatus(status), f) == Store(cfg, s, f).WithStatus(status)
  {
  }

  lemma {:induction false} RunMarked(cfg: RxConfig, s: RxState, status: RxStatus, frames: seq<Frame>)
    ensures Run(cfg, s.WithStatus(status), frames) == Run(cfg, s, frames).WithStatus(status)
    decreases frames
  {
    if frames != [] {
      StepMarked(cfg, s, status, frames[0]);
      RunMarked(cfg, Step(cfg, s, frames[0]), status, frames[1..]);
    }
  }

  // ---------- Any schedule ----------

  /** Timeouts, poll errors and stop requests decide which frames are seen and what status is reported. */
  lemma {:induction false} CaptureLoopIsRun(cfg: RxConfig, s: RxState, events: seq<RxEvent>)
    requires !s.endCapture
    ensures var end := CaptureLoop(cfg, s, events).state;
            end == Run(cfg, s, Seen(s.Packets(), events)).WithStatus(end.Status())
    decreases |events|
  {
    if events != [] {
      var e, rest := events[0], events[1..];
      var next := Turn(cfg, s, e);
      if e.Dispatch? {
        RunFlags(cfg, s, e.frames);
        if e.stop || EndsIn(s.Packets(), e.frames) {
          assert e.frames + [] == e.frames;
        } else {
          CaptureLoopIsRun(cfg, next, rest);
          RunAppend(cfg, s, e.frames, Seen(next.Packets(), rest));
        }
      } else if e == PollError(false) {
        CaptureLoopIsRun(cfg, next, rest);
        RunMarked(cfg, s, RxError, Seen(s.Packets(), rest));
      }
    }
  }

  /** A capture writes and counts what one run over the frames it saw writes and counts. */
  lemma CaptureIsRun(cfg: RxConfig, events: seq<RxEvent>)
    ensures var end, frames := Capture(cfg, events).state, Seen(0, events);
            && end == Dump(cfg, Run(cfg, INIT, frames)).WithStatus(end.Status())
            && end.sink.out == RunOutput(cfg, frames)
  {
    var end := CaptureLoop(cfg, INIT, events).state;
    CaptureLoopIsRun(cfg, INIT, events);
    DumpMarked(cfg, Run(cfg, INIT, Seen(0, events)), end.Status());
  }

  // ---------- How a capture ends ----------

  /** Dispatches and poll errors without a stop request. */
  ghost predicate Quiet(events: seq<RxEvent>) {
    forall e :: e in events ==> e == PollError(false) || (e.Dispatch? && !e.stop)
  }

  /** The frames of all dispatches. */
  function FramesIn(events: seq<RxEvent>): seq<Frame> {
    if events == [] then []
    else (if events[0].Dispatch? then events[0].frames else []) + FramesIn(events[1..])
  }

  lemma {:induction false} FramesInAppend(a: seq<RxEvent>, b: seq<RxEvent>)
    ensures FramesIn(a + b) == FramesIn(a) + FramesIn(b)
  {
    if a == [] {
      assert a + b == b;
    } else {
      assert (a + b)[1..] == a[1..] + b;
      FramesInAppend(a[1..], b);
    }
  }

  /** The state after events that do not end a capture: an error, once met, stays. */
  function Continued(cfg: RxConfig, s: RxState, a: seq<RxEvent>): RxState {
    Run(cfg, s, FramesIn(a)).WithStatus(if PollError(false) in a then RxError else s.Status())
  }

  lemma FramesInSnoc(a: seq<RxEvent>, e: RxEvent)
    ensures FramesIn(a + [e]) == if e.Dispatch? then FramesIn(a) + e.frames else FramesIn(a)
  {
    FramesInAppend(a, [e]);
    FramesInCons(e, []);
    assert [e] + [] == [e];
  }

  lemma FramesInCons(e: RxEvent, later: seq<RxEvent>)
    ensures FramesIn([e] + later) == if e.Dispatch? then e.frames + FramesIn(later) else FramesIn(later)
  {
    assert ([e] + later)[1..] == later && [] + FramesIn(later) == FramesIn(later);
  }

  lemma QuietDispatch(cfg: RxConfig, s: RxState, e: RxEvent, later: seq<RxEvent>)
    requires e.Dispatch? && !s.endCapture && !EndsIn(s.Packets(), FramesIn([e] + later))
    ensures var next := Turn(cfg, s, e);
            && !next.endCapture && !EndsIn(next.Packets(), FramesIn(later))
            && Continued(cfg, s, [e] + later) == Continued(cfg, next, later)
  {
    FramesInCons(e, later);
    EndsInAppend(s.Packets(), e.frames, FramesIn(later));
    RunFlags(cfg, s, e.frames);
    RunAppend(cfg, s, e.frames, FramesIn(later));
    assert PollError(false) in [e] + later <==> PollError(false) in later;
  }

  lemma QuietError(cfg: RxConfig, s: RxState, later: seq<RxEvent>)
    ensures FramesIn([PollError(false)] + later) == FramesIn(later)
    ensures Continued(cfg, s, [PollError(false)] + later) == Continued(cfg, s.WithStatus(RxError), later)
  {
    FramesInCons(PollError(false), later);
    RunMarked(cfg, s, RxError, FramesIn(later));
  }

  lemma ContinuedFlags(cfg: RxConfig, s: RxState, a: seq<RxEvent>)
    requires !s.endCapture && !EndsIn(s.Packets(), FramesIn(a))
    ensures !Continued(cfg, s, a).endCapture
    ensures Continued(cfg, s, a).Packets() == CountedAll(s.Packets(), FramesIn(a))
  {
    RunFlags(cfg, s, FramesIn(a));
  }

  /** A capture goes on behind quiet events whose frames do not end it. */
  lemma {:induction false} QuietEventsGoOn(cfg: RxConfig, s: RxState, a: seq<RxEvent>, rest: seq<RxEvent>)
    requires Quiet(a) && !s.endCapture && !EndsIn(s.Packets(), FramesIn(a))
    ensures CaptureLoop(cfg, s, a + rest) == CaptureLoop(cfg, Continued(cfg, s, a), rest)
    decreases |a|
  {
    if a == [] {
      assert a + rest == rest;
    } else {
      var e, later := a[0], a[1..];
      assert e in a && a == [e] + later && (a + rest)[1..] == later + rest;
      if e.Dispatch? {
        QuietDispatch(cfg, s, e, later);
      } else {
        QuietError(cfg, s, later);
      }
      QuietEventsGoOn(cfg, Turn(cfg, s, e), later, rest);
    }
  }

  /** `e` ends a capture behind quiet events `a`: a timeout, a stop request or the next file's preamble. */
  ghost predicate EndsBehind(a: seq<RxEvent>, e: RxEvent) {
    && Quiet(a) && !EndsIn(0, FramesIn(a))
    && (e.Timeout? || e.stop || (e.Dispatch? && EndsIn(0, FramesIn(a) + e.frames)))
  }

  /** What is reported at the end: a stop during a dispatch leaves the status as it was. */
  function Reported(a: seq<RxEvent>, e: RxEvent): RxStatus {
    match e
    case Timeout => RxTimedOut
    case PollError(_) => RxDeactivated
    case Dispatch(_, _) => if PollError(false) in a then RxError else RxNormal
  }

  lemma LoopEnds(cfg: RxConfig, s: RxState, e: RxEvent, b: seq<RxEvent>)
    requires !s.endCapture && (e.Timeout? || e.stop || (e.Dispatch? && EndsIn(s.Packets(), e.frames)))
    ensures CaptureLoop(cfg, s, [e] + b) == Captured(Turn(cfg, s, e), b)
  {
    assert ([e] + b)[1..] == b;
    if e.Dispatch? {
      RunFlags(cfg, s, e.frames);
    }
  }

  lemma LastTurn(cfg: RxConfig, a: seq<RxEvent>, e: RxEvent)
    requires EndsBehind(a, e)
    ensures Turn(cfg, Continued(cfg, INIT, a), e) == Run(cfg, INIT, FramesIn(a + [e])).WithStatus(Reported(a, e))
  {
    FramesInSnoc(a, e);
    if e.Dispatch? {
      RunAppend(cfg, INIT, FramesIn(a), e.frames);
      RunMarked(cfg, Run(cfg, INIT, FramesIn(a)), Continued(cfg, INIT, a).Status(), e.frames);
    }
  }

  /**
   A timeout, a stop request or the preamble of the next file ends the capture with that turn. The rest of
   the schedule is left to the next capture, and all frames dispatched so far have been written.
   */
  lemma CaptureEndsThere(cfg: RxConfig, a: seq<RxEvent>, e: RxEvent, b: seq<RxEvent>)
    requires EndsBehind(a, e)
    ensures Capture(cfg, a + [e] + b).rest == b
    ensures Capture(cfg, a + [e] + b).state.sink.out == RunOutput(cfg, FramesIn(a + [e]))
    ensures Capture(cfg, a + [e] + b).state.Status() == Reported(a, e)
  {
    var s := Continued(cfg, INIT, a);
    assert a + [e] + b == a + ([e] + b);
    QuietEventsGoOn(cfg, INIT, a, [e] + b);
    ContinuedFlags(cfg, INIT, a);
    if e.Dispatch? {
      EndsInAppend(0, FramesIn(a), e.frames);
    }
    LoopEnds(cfg, s, e, b);
    LastTurn(cfg, a, e);
    DumpMarked(cfg, Run(cfg, INIT, FramesIn(a + [e])), Reported(a, e));
    RunFlags(cfg, INIT, FramesIn(a + [e]));
    DumpKeepsStatus(cfg, Turn(cfg, s, e));
  }

  lemma DumpKeepsStatus(cfg: RxConfig, s: RxState)
    ensures Dump(cfg, s).Status() == s.Status()
  {
    DrainKeepsProgress(cfg, s.pending, s.sink);
  }

  /** Otherwise it ends with the schedule, deactivated. */
  lemma CaptureEndsWithSchedule(cfg: RxConfig, a: seq<RxEvent>)
    requires Quiet(a) && !EndsIn(0, FramesIn(a))
    ensures Capture(cfg, a).rest == [] && Capture(cfg, a).state.Status() == RxDeactivated
    ensures Capture(cfg, a).state.sink.out == RunOutput(cfg, FramesIn(a))
  {
    assert a + [] == a;
    QuietEventsGoOn(cfg, INIT, a, []);
    ContinuedFlags(cfg, INIT, a);
    DumpMarked(cfg, Run(cfg, INIT, FramesIn(a)), RxDeactivated);
    DumpKeepsStatus(cfg, Run(cfg, INIT, FramesIn(a)).WithStatus(RxDeactivated));
  }

  /** There is no third way. */
  lemma {:induction false} EveryCaptureEnds(events: seq<RxEvent>, k: nat)
    requires k <= |events| && Quiet(events[..k]) && !EndsIn(0, FramesIn(events[..k]))
    ensures (Quiet(events) && !EndsIn(0, FramesIn(events)))
         || exists n :: 0 <= n < |events| && EndsBehind(events[..n], events[n])
    decreases |events| - k
  {
    if k == |events| {
      assert events[..k] == events;
    } else if !EndsBehind(events[..k], events[k]) {
      assert events[..k + 1] == events[..k] + [events[k]];
      FramesInSnoc(events[..k], events[k]);
      EveryCaptureEnds(events, k + 1);
    }
  }

  // ---------- What the directory loop makes of it ----------

  /**
   A timeout, a stop request during a failed poll and an earlier poll error end the directory loop; the
   next file's preamble does not, and neither does a stop request during a dispatch.
   */
  lemma DirectoryGoesOn(cfg: RxConfig, a: seq<RxEvent>, e: RxEvent, b: seq<RxEvent>)
    requires EndsBehind(a, e)
    ensures Directory(cfg, a + [e] + b)
         == [RunOutput(cfg, FramesIn(a + [e]))]
          + if e.Dispatch? && PollError(false) !in a then Directory(cfg, b) else []
  {
    CaptureEndsThere(cfg, a, e, b);
  }

  // ---------- Poll errors ----------

  lemma {:induction false} LoopMarked(cfg: RxConfig, s: RxState, status: RxStatus, events: seq<RxEvent>)
    ensures var c, d := CaptureLoop(cfg, s, events), CaptureLoop(cfg, s.WithStatus(status), events);
            d.rest == c.rest && d.state.WithStatus(RxNormal) == c.state.WithStatus(RxNormal)
    decreases |events|
  {
    if !s.endCapture && events != [] {
      var e := events[0];
      if e.Dispatch? {
        RunMarked(cfg, s, status, e.frames);
      }
      if StaysActive(e) && e.Dispatch? {
        LoopMarked(cfg, Turn(cfg, s, e), status, events[1..]);
      }
    }
  }

  lemma {:induction false} LoopSkipsPollError(cfg: RxConfig, s: RxState, x: seq<RxEvent>, y: seq<RxEvent>)
    ensures var c, d := CaptureLoop(cfg, s, x + y), CaptureLoop(cfg, s, x + [PollError(false)] + y);
            d.state.WithStatus(RxNormal) == c.state.WithStatus(RxNormal)
    decreases |x|
  {
    var z := x + [PollError(false)] + y;
    if !s.endCapture {
      if x == [] {
        assert x + y == y && z[0] == PollError(false) && z[1..] == y;
        LoopMarked(cfg, s, RxError, y);
      } else {
        assert (x + y)[1..] == x[1..] + y && z[1..] == x[1..] + [PollError(false)] + y;
        LoopSkipsPollError(cfg, Turn(cfg, s, x[0]), x[1..], y);
      }
    }
  }

  /** Deleting a poll error without a stop request changes the status of a capture at most. */
  lemma PollErrorLeavesBytes(cfg: RxConfig, x: seq<RxEvent>, y: seq<RxEvent>)
    ensures Capture(cfg, x + [PollError(false)] + y).state.WithStatus(RxNormal)
         == Capture(cfg, x + y).state.WithStatus(RxNormal)
  {
    var c, d := CaptureLoop(cfg, INIT, x + y).state, CaptureLoop(cfg, INIT, x + [PollError(false)] + y).state;
    LoopSkipsPollError(cfg, INIT, x, y);
    DumpMarked(cfg, c, RxNormal);
    DumpMarked(cfg, d, RxNormal);
  }
}
