/** When the sizes of the dispatches do not matter to what the captures of a directory get. */
module Dispatching {
  import opened Machine
  import opened Sequences
  import opened Wire
  import opened ReceiverModel
  import opened Delivery
  import opened Splitting

  function DataOf(segments: seq<seq<Frame>>): (r: seq<seq<Frame>>)
    ensures |r| == |segments| && forall k :: 0 <= k < |r| ==> r[k] == DataFrames(segments[k])
  {
    if segments == [] then [] else [DataFrames(segments[0])] + DataOf(segments[1..])
  }

  // ---------- Segments, data only ----------

  /** The data frames that join `data` when `f` arrives. */
  function WithFrame(data: seq<Frame>, f: Frame): seq<Frame> {
    if Classify(f) == NoControl then data + [f] else data
  }

  /** The data of the segments, when `data` has arrived in the current one. */
  function DataSegments(data: seq<Frame>, packets: uint32, frames: seq<Frame>): (r: seq<seq<Frame>>)
    ensures r != []
    decreases frames
  {
    if frames == [] then [data]
    else if EndsCapture(packets, frames[0]) then [data] + DataSegments([], 0, frames[1..])
    else DataSegments(WithFrame(data, frames[0]), Counted(packets, frames[0]), frames[1..])
  }

  lemma DataFramesSnoc(current: seq<Frame>, f: Frame)
    ensures DataFrames(current + [f]) == WithFrame(DataFrames(current), f)
  {
    DataFramesAppend(current, [f]);
    assert [f][1..] == [] && DataFrames(current) + [] == DataFrames(current);
  }

  lemma {:induction false} SegmentsHoldData(current: seq<Frame>, packets: uint32, frames: seq<Frame>)
    ensures DataOf(Segments(current, packets, frames)) == DataSegments(DataFrames(current), packets, frames)
    decreases frames
  {
    if frames != [] {
      DataFramesSnoc(current, frames[0]);
      if EndsCapture(packets, frames[0]) {
        SegmentsHoldData([], 0, frames[1..]);
      } else {
        SegmentsHoldData(current + [frames[0]], Counted(packets, frames[0]), frames[1..]);
      }
    }
  }

  // ---------- One dispatch ----------

  /** The frames behind the one that ends the capture. */
  function AfterEnd(packets: uint32, frames: seq<Frame>): seq<Frame>
    requires EndsIn(packets, frames)
    decreases frames
  {
    if EndsCapture(packets, frames[0]) then frames[1..] else AfterEnd(Counted(packets, frames[0]), frames[1..])
  }

  lemma WithFrameFirst(data: seq<Frame>, f: Frame, rest: seq<Frame>)
    ensures WithFrame(data, f) + rest == data + (WithFrame([], f) + rest)
  {
  }

  lemma DataFramesCons(f: Frame, rest: seq<Frame>)
    ensures DataFrames([f] + rest) == WithFrame([], f) + DataFrames(rest)
  {
    assert ([f] + rest)[1..] == rest;
  }

  lemma {:induction false} NoEndInFront(data: seq<Frame>, packets: uint32, a: seq<Frame>, b: seq<Frame>)
    requires !EndsIn(packets, a)
    ensures DataSegments(data, packets, a + b) == DataSegments(data + DataFrames(a), CountedAll(packets, a), b)
    decreases a
  {
    if a == [] {
      assert a + b == b && data + [] == data;
    } else {
      var f, rest := a[0], a[1..];
      assert a == [f] + rest && (a + b)[1..] == rest + b;
      NoEndInFront(WithFrame(data, f), Counted(packets, f), rest, b);
      DataFramesCons(f, rest);
      WithFrameFirst(data, f, DataFrames(rest));
    }
  }

  /** Frame by frame, the segment has ended before the frames behind the end. */
  lemma {:induction false} EndInFront(data: seq<Frame>, packets: uint32, a: seq<Frame>, b: seq<Frame>)
    returns (before: seq<Frame>)
    requires EndsIn(packets, a)
    ensures DataFrames(a) == before + DataFrames(AfterEnd(packets, a))
    ensures DataSegments(data, packets, a + b) == [data + before] + DataSegments([], 0, AfterEnd(packets, a) + b)
    decreases a
  {
    var f, rest := a[0], a[1..];
    assert a == [f] + rest && (a + b)[1..] == rest + b;
    DataFramesCons(f, rest);
    if EndsCapture(packets, f) {
      before := [];
      assert data + [] == data && [] + DataFrames(rest) == DataFrames(rest);
    } else {
      var later := EndInFront(WithFrame(data, f), Counted(packets, f), rest, b);
      before := WithFrame([], f) + later;
      WithFrameFirst(data, f, later);
      Associative(WithFrame([], f), later, DataFrames(AfterEnd(packets, a)));
    }
  }

  lemma {:induction false} NoDataNoEnd(frames: seq<Frame>)
    requires DataFrames(frames) == []
    ensures !EndsIn(0, frames) && CountedAll(0, frames) == 0
  {
    if frames != [] {
      NoDataNoEnd(frames[1..]);
    }
  }

  lemma {:induction false} AfterEndAppend(packets: uint32, a: seq<Frame>, b: seq<Frame>)
    requires EndsIn(packets, a + b)
    ensures EndsIn(packets, a) ==> AfterEnd(packets, a + b) == AfterEnd(packets, a) + b
    ensures !EndsIn(packets, a) ==>
              EndsIn(CountedAll(packets, a), b) && AfterEnd(packets, a + b) == AfterEnd(CountedAll(packets, a), b)
    decreases a
  {
    if a == [] {
      assert a + b == b;
    } else {
      assert (a + b)[1..] == a[1..] + b;
      if !EndsCapture(packets, a[0]) {
        AfterEndAppend(Counted(packets, a[0]), a[1..], b);
      }
    }
  }

  /** If no data follows the end of the first capture, that capture gets all the data, whatever the dispatches. */
  lemma {:induction false} FirstSegmentHoldsAll(current: seq<Frame>, packets: uint32, events: seq<RxEvent>)
    requires EndsIn(packets, FramesOf(events)) ==> DataFrames(AfterEnd(packets, FramesOf(events))) == []
    ensures DataFrames(DispatchSegments(current, packets, events)[0])
         == DataFrames(current) + DataFrames(FramesOf(events))
    decreases |events|
  {
    if events == [] || !events[0].Dispatch? {
      assert DataFrames(current) + [] == DataFrames(current);
    } else {
      var frames, rest := events[0].frames, events[1..];
      var later := FramesOf(rest);
      DataFramesAppend(current, frames);
      DataFramesAppend(frames, later);
      EndsInAppend(packets, frames, later);
      if EndsIn(packets, frames) {
        AfterEndAppend(packets, frames, later);
        DataFramesAppend(AfterEnd(packets, frames), later);
      } else {
        if EndsIn(CountedAll(packets, frames), later) {
          AfterEndAppend(packets, frames, later);
        }
        FirstSegmentHoldsAll(current + frames, CountedAll(packets, frames), rest);
      }
    }
  }

  // ---------- Any dispatches ----------

  /** No dispatch holds data behind the preamble that ends a capture. */
  predicate CleanCuts(packets: uint32, events: seq<RxEvent>)
    decreases |events|
  {
    events == [] || !events[0].Dispatch? ||
    var frames := events[0].frames;
    if EndsIn(packets, frames) then DataFrames(AfterEnd(packets, frames)) == [] && CleanCuts(0, events[1..])
    else CleanCuts(CountedAll(packets, frames), events[1..])
  }

  lemma {:induction false} OneByOneIsClean(packets: uint32, events: seq<RxEvent>)
    requires OneByOne(events)
    ensures CleanCuts(packets, events)
    decreases |events|
  {
    if events != [] && events[0].Dispatch? {
      assert events[0] in events;
      var frames := events[0].frames;
      if EndsIn(packets, frames) {
        assert frames == [frames[0]] && frames[1..] == [];
        OneByOneIsClean(0, events[1..]);
      } else {
        OneByOneIsClean(CountedAll(packets, frames), events[1..]);
      }
    }
  }

  /** The segments of a schedule that goes on after `current` hold the data of the same frames one by one. */
  ghost predicate SameData(current: seq<Frame>, packets: uint32, events: seq<RxEvent>) {
    DataOf(DispatchSegments(current, packets, events)) == DataSegments(DataFrames(current), packets, FramesOf(events))
  }

  /** A dispatch that ends a capture: with data behind the end the first segment gets too much. */
  lemma CutExactly(current: seq<Frame>, packets: uint32, frames: seq<Frame>, rest: seq<RxEvent>)
    requires EndsIn(packets, frames)
    ensures [DataFrames(current + frames)] + DataOf(DispatchSegments([], 0, rest))
         == DataSegments(DataFrames(current), packets, frames + FramesOf(rest))
       <==> DataFrames(AfterEnd(packets, frames)) == [] && SameData([], 0, rest)
  {
    var data, tail := DataFrames(current), AfterEnd(packets, frames);
    var before := EndInFront(data, packets, frames, FramesOf(rest));
    DataFramesAppend(current, frames);
    var a, b := DataOf(DispatchSegments([], 0, rest)), DataSegments([], 0, tail + FramesOf(rest));
    FirstAndRest(data + DataFrames(frames), a, data + before, b);
    if DataFrames(tail) == [] {
      NoDataNoEnd(tail);
      NoEndInFront([], 0, tail, FramesOf(rest));
      assert before + [] == before && [] + DataFrames(tail) == [];
      assert DataFrames(frames) == before && b == DataSegments([], 0, FramesOf(rest));
    } else {
      assert |data + DataFrames(frames)| != |data + before|;
    }
  }

  lemma FirstAndRest<T>(x: T, xs: seq<T>, y: T, ys: seq<T>)
    ensures [x] + xs == [y] + ys <==> x == y && xs == ys
  {
    assert ([x] + xs)[0] == x && ([x] + xs)[1..] == xs;
    assert ([y] + ys)[0] == y && ([y] + ys)[1..] == ys;
  }

  lemma {:induction false} SameDataExactly(current: seq<Frame>, packets: uint32, events: seq<RxEvent>)
    ensures SameData(current, packets, events) <==> CleanCuts(packets, events)
    decreases |events|
  {
    if events != [] && events[0].Dispatch? {
      var frames, rest := events[0].frames, events[1..];
      if EndsIn(packets, frames) {
        SameDataExactly([], 0, rest);
        CutExactly(current, packets, frames, rest);
      } else {
        DataFramesAppend(current, frames);
        NoEndInFront(DataFrames(current), packets, frames, FramesOf(rest));
        SameDataExactly(current + frames, CountedAll(packets, frames), rest);
      }
    }
  }

  /**
   Larger dispatches give every capture the data that it gets frame by frame exactly if no dispatch
   holds data behind the preamble that ends a capture.
   */
  lemma DispatchesKeepDataExactly(events: seq<RxEvent>)
    ensures DataOf(DispatchSegments([], 0, events)) == DataOf(Segments([], 0, FramesOf(events)))
       <==> CleanCuts(0, events)
  {
    SegmentsHoldData([], 0, FramesOf(events));
    SameDataExactly([], 0, events);
  }

  // ---------- Outputs depend on the data only ----------

  lemma {:induction false} SameDataSameOutputs(cfg: RxConfig, a: seq<seq<Frame>>, b: seq<seq<Frame>>)
    requires DataOf(a) == DataOf(b)
    ensures Outputs(cfg, a) == Outputs(cfg, b)
  {
    forall k | 0 <= k < |a| ensures Outputs(cfg, a)[k] == Outputs(cfg, b)[k] {
      assert DataFrames(a[k]) == DataOf(a)[k] == DataOf(b)[k] == DataFrames(b[k]);
      OnlyDataIsWritten(cfg, a[k]);
      OnlyDataIsWritten(cfg, b[k]);
    }
  }

  /** Schedules that cut cleanly and show the same frames are captured into the same outputs. */
  lemma CleanDispatchesDoNotMatter(cfg: RxConfig, a: seq<RxEvent>, b: seq<RxEvent>)
    requires Undisturbed(a) && Undisturbed(b) && FramesOf(a) == FramesOf(b)
    requires CleanCuts(0, a) && CleanCuts(0, b)
    ensures Directory(cfg, a) == Directory(cfg, b)
  {
    DirectorySplitsAtDispatches(cfg, a);
    DirectorySplitsAtDispatches(cfg, b);
    DispatchesKeepDataExactly(a);
    DispatchesKeepDataExactly(b);
    SameDataSameOutputs(cfg, DispatchSegments([], 0, a), DispatchSegments([], 0, b));
  }
}
