/** How the frames on the air are split over the captures of a directory. */
module Splitting {
  import opened Machine
  import opened Wire
  import opened ReceiverModel
  import opened Draining
  import opened Windows
  import opened Delivery

  /** Dispatches without a stop request up to a timeout or the end of the savefile. */
  ghost predicate Undisturbed(events: seq<RxEvent>) {
    events == [] || events[0].Timeout? || (events[0].Dispatch? && !events[0].stop && Undisturbed(events[1..]))
  }

  /** The schedule of a receiver that dispatches one frame at a time. */
  ghost predicate OneByOne(events: seq<RxEvent>) {
    && Undisturbed(events)
    && forall e :: e in events && e.Dispatch? ==> |e.frames| <= 1
  }

  /** The frames that arrive before the schedule ends. */
  function FramesOf(events: seq<RxEvent>): seq<Frame> {
    if events == [] || !events[0].Dispatch? then [] else events[0].frames + FramesOf(events[1..])
  }

  // ---------- Where a capture ends ----------

  predicate EndsCapture(packets: uint32, f: Frame) {
    Classify(f) == Preamble && packets > 0
  }

  function Counted(packets: uint32, f: Frame): uint32 {
    if Classify(f) == NoControl then U32(packets + 1) else packets
  }

  function CountedAll(packets: uint32, frames: seq<Frame>): uint32
    decreases frames
  {
    if frames == [] then packets else CountedAll(Counted(packets, frames[0]), frames[1..])
  }

  lemma {:induction false} CountedAllIsDataCount(packets: uint32, frames: seq<Frame>)
    ensures CountedAll(packets, frames) == U32(packets + |DataFrames(frames)|)
    decreases frames
  {
    if frames != [] {
      CountedAllIsDataCount(Counted(packets, frames[0]), frames[1..]);
      U32Sum(packets + 1, |DataFrames(frames[1..])|);
    }
  }

  /** Some frame ends a capture that has counted `packets` before. */
  predicate EndsIn(packets: uint32, frames: seq<Frame>)
    decreases frames
  {
    frames != [] && (EndsCapture(packets, frames[0]) || EndsIn(Counted(packets, frames[0]), frames[1..]))
  }

  ghost predicate Shows(frames: seq<Frame>, kind: ControlType) {
    exists j :: 0 <= j < |frames| && Classify(frames[j]) == kind
  }

  ghost predicate PreambleBehindData(frames: seq<Frame>) {
    exists i, j :: 0 <= i < j < |frames| && Classify(frames[i]) == NoControl && Classify(frames[j]) == Preamble
  }

  lemma ShowsStep(f: Frame, rest: seq<Frame>, kind: ControlType)
    ensures Shows([f] + rest, kind) <==> Classify(f) == kind || Shows(rest, kind)
  {
    var all := [f] + rest;
    if Classify(f) == kind {
      assert Classify(all[0]) == kind;
    } else if Shows(rest, kind) {
      var j :| 0 <= j < |rest| && Classify(rest[j]) == kind;
      assert Classify(all[j + 1]) == kind;
    }
  }

  lemma BehindStep(f: Frame, rest: seq<Frame>)
    ensures PreambleBehindData([f] + rest) <==>
            PreambleBehindData(rest) || (Classify(f) == NoControl && Shows(rest, Preamble))
  {
    var all := [f] + rest;
    if PreambleBehindData(rest) {
      var i, j :| 0 <= i < j < |rest| && Classify(rest[i]) == NoControl && Classify(rest[j]) == Preamble;
      assert all[i + 1] == rest[i] && all[j + 1] == rest[j];
    } else if Classify(f) == NoControl && Shows(rest, Preamble) {
      var j :| 0 <= j < |rest| && Classify(rest[j]) == Preamble;
      assert all[0] == f && all[j + 1] == rest[j];
    }
  }

  /** As long as the packet counter does not wrap around, only a preamble behind data ends a capture. */
  lemma {:induction false} EndsExactlyBehindData(packets: uint32, frames: seq<Frame>)
    requires packets + |DataFrames(frames)| < TWO_TO_32
    ensures EndsIn(packets, frames) <==> (packets > 0 && Shows(frames, Preamble)) || PreambleBehindData(frames)
    decreases frames
  {
    if frames != [] {
      var f, rest := frames[0], frames[1..];
      assert frames == [f] + rest;
      ShowsStep(f, rest, Preamble);
      BehindStep(f, rest);
      EndsExactlyBehindData(Counted(packets, f), rest);
    }
  }

  lemma {:induction false} RunAppend(cfg: RxConfig, s: RxState, a: seq<Frame>, b: seq<Frame>)
    ensures Run(cfg, s, a + b) == Run(cfg, Run(cfg, s, a), b)
    decreases a
  {
    if a == [] {
      assert a + b == b;
    } else {
      assert (a + b)[1..] == a[1..] + b;
      RunAppend(cfg, Step(cfg, s, a[0]), a[1..], b);
    }
  }

  lemma StepFlags(cfg: RxConfig, s: RxState, f: Frame)
    ensures Step(cfg, s, f).Packets() == Counted(s.Packets(), f) && Step(cfg, s, f).Status() == s.Status()
    ensures Step(cfg, s, f).endCapture == (s.endCapture || EndsCapture(s.Packets(), f))
  {
    DrainKeepsProgress(cfg, s.pending, s.sink);
  }

  lemma {:induction false} RunFlags(cfg: RxConfig, s: RxState, frames: seq<Frame>)
    ensures var next := Run(cfg, s, frames);
            && next.Packets() == CountedAll(s.Packets(), frames) && next.Status() == s.Status()
            && next.endCapture == (s.endCapture || EndsIn(s.Packets(), frames))
    decreases frames
  {
    if frames != [] {
      StepFlags(cfg, s, frames[0]);
      RunFlags(cfg, Step(cfg, s, frames[0]), frames[1..]);
    }
  }

  /** The flags say which control frames have been seen. */
  lemma {:induction false} RunShows(cfg: RxConfig, s: RxState, frames: seq<Frame>)
    ensures Run(cfg, s, frames).preambleRecv <==> s.preambleRecv || Shows(frames, Preamble)
    ensures Run(cfg, s, frames).eotReached <==> s.eotReached || Shows(frames, Eot)
    decreases frames
  {
    if frames != [] {
      assert frames == [frames[0]] + frames[1..];
      ShowsStep(frames[0], frames[1..], Preamble);
      ShowsStep(frames[0], frames[1..], Eot);
      RunShows(cfg, Step(cfg, s, frames[0]), frames[1..]);
    }
  }

  lemma StatusDoesNotMatter(cfg: RxConfig, s: RxState, status: RxStatus)
    ensures Dump(cfg, s.WithStatus(status)).sink.out == Dump(cfg, s).sink.out
  {
    DrainBytes(cfg, s.pending, s.sink);
    DrainBytes(cfg, s.pending, s.WithStatus(status).sink);
  }

  /** The output of a capture whose loop ended with `c`, and the outputs of the captures after it. */
  function Remainder(cfg: RxConfig, c: Captured): seq<seq<byte>> {
    [Dump(cfg, c.state).sink.out] + if c.state.Status() == RxNormal then Directory(cfg, c.rest) else []
  }

  lemma DirectoryIsRemainder(cfg: RxConfig, events: seq<RxEvent>)
    ensures Directory(cfg, events) == Remainder(cfg, CaptureLoop(cfg, INIT, events))
  {
    var s := CaptureLoop(cfg, INIT, events).state;
    DrainKeepsProgress(cfg, s.pending, s.sink);
  }

  // ---------- Segments ----------

  function Outputs(cfg: RxConfig, segments: seq<seq<Frame>>): (r: seq<seq<byte>>)
    ensures |r| == |segments| && forall k :: 0 <= k < |r| ==> r[k] == RunOutput(cfg, segments[k])
  {
    if segments == [] then [] else [RunOutput(cfg, segments[0])] + Outputs(cfg, segments[1..])
  }

  /** The frames of every capture: one ends with the dispatch in which a preamble follows data. */
  function DispatchSegments(current: seq<Frame>, packets: uint32, events: seq<RxEvent>): (r: seq<seq<Frame>>)
    ensures r != []
    decreases |events|
  {
    if events == [] || !events[0].Dispatch? then [current]
    else
      var frames := events[0].frames;
      if EndsIn(packets, frames) then [current + frames] + DispatchSegments([], 0, events[1..])
      else DispatchSegments(current + frames, CountedAll(packets, frames), events[1..])
  }

  /** A capture that has seen `current` goes on as the segments say. */
  lemma {:induction false} CapturesFollowSegments(cfg: RxConfig, s: RxState, current: seq<Frame>, events: seq<RxEvent>)
    requires Undisturbed(events)
    requires s == Run(cfg, INIT, current) && s.Status() == RxNormal && !s.endCapture
    ensures Remainder(cfg, CaptureLoop(cfg, s, events))
         == Outputs(cfg, DispatchSegments(current, s.Packets(), events))
    decreases |events|
  {
    if events == [] {
      StatusDoesNotMatter(cfg, s, RxDeactivated);
    } else if events[0].Timeout? {
      StatusDoesNotMatter(cfg, s, RxTimedOut);
    } else {
      var frames, rest := events[0].frames, events[1..];
      RunAppend(cfg, INIT, current, frames);
      RunFlags(cfg, s, frames);
      if EndsIn(s.Packets(), frames) {
        CapturesFollowSegments(cfg, INIT, [], rest);
        DirectoryIsRemainder(cfg, rest);
      } else {
        CapturesFollowSegments(cfg, Run(cfg, s, frames), current + frames, rest);
      }
    }
  }

  /** Whatever the sizes of the dispatches, a directory capture writes one output for every segment. */
  lemma DirectorySplitsAtDispatches(cfg: RxConfig, events: seq<RxEvent>)
    requires Undisturbed(events)
    ensures Directory(cfg, events) == Outputs(cfg, DispatchSegments([], 0, events))
  {
    CapturesFollowSegments(cfg, INIT, [], events);
    DirectoryIsRemainder(cfg, events);
  }

  // ---------- One frame at a time ----------

  /** Cuts the frames behind every preamble that follows data. */
  function Segments(current: seq<Frame>, packets: uint32, frames: seq<Frame>): (r: seq<seq<Frame>>)
    ensures r != []
    decreases frames
  {
    if frames == [] then [current]
    else if EndsCapture(packets, frames[0]) then [current + [frames[0]]] + Segments([], 0, frames[1..])
    else Segments(current + [frames[0]], Counted(packets, frames[0]), frames[1..])
  }

  lemma OneFrame(packets: uint32, f: Frame)
    ensures EndsIn(packets, [f]) == EndsCapture(packets, f) && CountedAll(packets, [f]) == Counted(packets, f)
  {
    assert [f][1..] == [];
  }

  lemma SegmentsCons(current: seq<Frame>, packets: uint32, f: Frame, rest: seq<Frame>)
    ensures Segments(current, packets, [f] + rest) ==
            if EndsCapture(packets, f) then [current + [f]] + Segments([], 0, rest)
            else Segments(current + [f], Counted(packets, f), rest)
  {
    assert ([f] + rest)[1..] == rest;
  }

  lemma {:induction false} OneByOneSegments(current: seq<Frame>, packets: uint32, events: seq<RxEvent>)
    requires OneByOne(events)
    ensures DispatchSegments(current, packets, events) == Segments(current, packets, FramesOf(events))
    decreases |events|
  {
    if events != [] && events[0].Dispatch? {
      var frames, rest := events[0].frames, events[1..];
      assert events[0] in events;
      if frames == [] {
        assert current + [] == current && [] + FramesOf(rest) == FramesOf(rest);
        OneByOneSegments(current, packets, rest);
      } else {
        var f := frames[0];
        assert frames == [f];
        OneFrame(packets, f);
        SegmentsCons(current, packets, f, FramesOf(rest));
        if EndsCapture(packets, f) {
          OneByOneSegments([], 0, rest);
        } else {
          OneByOneSegments(current + [f], Counted(packets, f), rest);
        }
      }
    }
  }

  /** A directory capture, one frame at a time, writes one output for every segment. */
  lemma DirectorySplitsAtPreambles(cfg: RxConfig, events: seq<RxEvent>)
    requires OneByOne(events)
    ensures Directory(cfg, events) == Outputs(cfg, Segments([], 0, FramesOf(events)))
  {
    DirectorySplitsAtDispatches(cfg, events);
    OneByOneSegments([], 0, events);
  }

  // ---------- Captures that no preamble ends ----------

  lemma {:induction false} EndsInAppend(packets: uint32, a: seq<Frame>, b: seq<Frame>)
    ensures EndsIn(packets, a + b) <==> EndsIn(packets, a) || EndsIn(CountedAll(packets, a), b)
    decreases a
  {
    if a == [] {
      assert a + b == b;
    } else {
      assert (a + b)[1..] == a[1..] + b;
      EndsInAppend(Counted(packets, a[0]), a[1..], b);
    }
  }

  lemma {:induction false} SplitExactly(current: seq<Frame>, packets: uint32, events: seq<RxEvent>)
    ensures |DispatchSegments(current, packets, events)| == 1 <==> !EndsIn(packets, FramesOf(events))
    decreases |events|
  {
    if events != [] && events[0].Dispatch? {
      var frames, rest := events[0].frames, events[1..];
      EndsInAppend(packets, frames, FramesOf(rest));
      if !EndsIn(packets, frames) {
        SplitExactly(current + frames, CountedAll(packets, frames), rest);
      }
    }
  }

  lemma {:induction false} UnsplitSegments(current: seq<Frame>, packets: uint32, events: seq<RxEvent>)
    requires !EndsIn(packets, FramesOf(events))
    ensures DispatchSegments(current, packets, events) == [current + FramesOf(events)]
    decreases |events|
  {
    if events == [] || !events[0].Dispatch? {
      assert current + [] == current;
    } else {
      var frames, rest := events[0].frames, events[1..];
      EndsInAppend(packets, frames, FramesOf(rest));
      UnsplitSegments(current + frames, CountedAll(packets, frames), rest);
      assert (current + frames) + FramesOf(rest) == current + (frames + FramesOf(rest));
    }
  }

  /** Without a preamble behind data the dispatches do not matter: the capture is one run to the end. */
  lemma UnsplitCapture(cfg: RxConfig, events: seq<RxEvent>)
    requires Undisturbed(events) && !EndsIn(0, FramesOf(events))
    ensures Directory(cfg, events) == [RunOutput(cfg, FramesOf(events))]
  {
    DirectorySplitsAtDispatches(cfg, events);
    UnsplitSegments([], 0, events);
    assert [] + FramesOf(events) == FramesOf(events);
  }

  /** There is one output only exactly if no preamble ends a capture. */
  lemma OneOutputExactly(cfg: RxConfig, events: seq<RxEvent>)
    requires Undisturbed(events)
    ensures |Directory(cfg, events)| == 1 <==> !EndsIn(0, FramesOf(events))
  {
    DirectorySplitsAtDispatches(cfg, events);
    SplitExactly([], 0, events);
  }
}
