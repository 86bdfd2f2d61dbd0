/** What the sizes of the outputs say about how the files were kept apart. */
module Separation {
  import opened Machine
  import opened Sequences
  import opened Wire
  import opened ReceiverModel
  import opened Draining
  import opened Delivery
  import opened Splitting
  import opened Dispatching
  import opened Channel

  // ---------- Sizes of data ----------

  function DataSize(data: seq<Frame>): nat {
    |Concat(PayloadsOf(data))|
  }

  lemma {:induction false} DataSizeAppend(a: seq<Frame>, b: seq<Frame>)
    ensures DataSize(a + b) == DataSize(a) + DataSize(b)
  {
    if a == [] {
      assert a + b == b;
    } else {
      assert (a + b)[1..] == a[1..] + b;
      DataSizeAppend(a[1..], b);
    }
  }

  lemma NoSizeNoData(data: seq<Frame>)
    requires NoneEmptyPayload(data)
    ensures DataSize(data) == 0 ==> data == []
  {
    if data != [] {
      assert Payload(data[0]) != [];
    }
  }

  function SizesOf(parts: seq<seq<Frame>>): (r: seq<nat>)
    ensures |r| == |parts| && forall k :: 0 <= k < |r| ==> r[k] == DataSize(parts[k])
  {
    if parts == [] then [] else [DataSize(parts[0])] + SizesOf(parts[1..])
  }

  function Sum(ns: seq<nat>): nat {
    if ns == [] then 0 else ns[0] + Sum(ns[1..])
  }

  lemma {:induction false} EqualSums(a: seq<nat>, b: seq<nat>)
    requires |a| == |b| && forall k :: 0 <= k < |a| ==> a[k] <= b[k]
    ensures Sum(a) <= Sum(b) && (Sum(a) == Sum(b) ==> a == b)
  {
    if a != [] {
      EqualSums(a[1..], b[1..]);
      assert a == [a[0]] + a[1..] && b == [b[0]] + b[1..];
    }
  }

  lemma SumOne(first: seq<Frame>, rest: seq<seq<Frame>>)
    ensures SizesOf([first] + rest) == [DataSize(first)] + SizesOf(rest)
    ensures Sum(SizesOf([first] + rest)) == DataSize(first) + Sum(SizesOf(rest))
  {
    assert ([first] + rest)[1..] == rest;
    assert ([DataSize(first)] + SizesOf(rest))[1..] == SizesOf(rest);
  }

  function DispatchSizes(current: seq<Frame>, packets: uint32, events: seq<RxEvent>): seq<nat> {
    SizesOf(DataOf(DispatchSegments(current, packets, events)))
  }

  function FrameSizes(data: seq<Frame>, packets: uint32, frames: seq<Frame>): seq<nat> {
    SizesOf(DataSegments(data, packets, frames))
  }

  /** The segments of any dispatches together hold all data. */
  lemma {:induction false} DispatchesHoldAll(current: seq<Frame>, packets: uint32, events: seq<RxEvent>)
    ensures Sum(DispatchSizes(current, packets, events))
         == DataSize(DataFrames(current)) + DataSize(DataFrames(FramesOf(events)))
    decreases |events|
  {
    if events == [] || !events[0].Dispatch? {
      SumOne(DataFrames(current), []);
      assert DataOf([current]) == [DataFrames(current)] + [];
    } else {
      var frames, rest := events[0].frames, events[1..];
      DataFramesAppend(current, frames);
      DataFramesAppend(frames, FramesOf(rest));
      DataSizeAppend(DataFrames(current), DataFrames(frames));
      DataSizeAppend(DataFrames(frames), DataFrames(FramesOf(rest)));
      if EndsIn(packets, frames) {
        DispatchesHoldAll([], 0, rest);
        SumOne(DataFrames(current + frames), DataOf(DispatchSegments([], 0, rest)));
      } else {
        DispatchesHoldAll(current + frames, CountedAll(packets, frames), rest);
      }
    }
  }

  /** So do the segments that are cut frame by frame. */
  lemma {:induction false} FramesHoldAll(data: seq<Frame>, packets: uint32, frames: seq<Frame>)
    ensures Sum(FrameSizes(data, packets, frames)) == DataSize(data) + DataSize(DataFrames(frames))
    decreases frames
  {
    if frames == [] {
      SumOne(data, []);
      assert [data] == [data] + [];
    } else {
      var f, rest := frames[0], frames[1..];
      assert frames == [f] + rest;
      DataFramesCons(f, rest);
      DataSizeAppend(WithFrame([], f), DataFrames(rest));
      if EndsCapture(packets, f) {
        FramesHoldAll([], 0, rest);
        SumOne(data, DataSegments([], 0, rest));
      } else {
        FramesHoldAll(WithFrame(data, f), Counted(packets, f), rest);
        DataSizeAppend(data, WithFrame([], f));
        WithFrameFirst(data, f, []);
      }
    }
  }

  // ---------- Sizes tell clean cuts ----------

  /** The data behind the end of a capture shows in the size of its segment. */
  lemma TailShows(data: seq<Frame>, all: seq<Frame>, before: seq<Frame>, tail: seq<Frame>)
    requires all == before + tail && NoneEmptyPayload(all) && DataSize(data + all) == DataSize(data + before)
    ensures tail == []
  {
    DataSizeAppend(data, all);
    DataSizeAppend(data, before);
    DataSizeAppend(before, tail);
    assert forall i :: 0 <= i < |tail| ==> tail[i] == all[|before| + i];
    NoSizeNoData(tail);
  }

  lemma NotEmptySplit(a: seq<Frame>, b: seq<Frame>)
    ensures NoneEmptyPayload(a + b) <==> NoneEmptyPayload(a) && NoneEmptyPayload(b)
  {
    var all := a + b;
    assert forall i :: 0 <= i < |a| ==> a[i] == all[i];
    assert forall i :: 0 <= i < |b| ==> b[i] == all[|a| + i];
  }

  lemma FirstSizes(a: seq<Frame>, as': seq<seq<Frame>>, b: seq<Frame>, bs: seq<seq<Frame>>)
    requires SizesOf([a] + as') == SizesOf([b] + bs)
    ensures DataSize(a) == DataSize(b) && SizesOf(as') == SizesOf(bs)
  {
    SumOne(a, as');
    SumOne(b, bs);
    assert ([DataSize(a)] + SizesOf(as'))[1..] == SizesOf(as');
    assert ([DataSize(b)] + SizesOf(bs))[1..] == SizesOf(bs);
  }

  /** A dispatch that ends a capture, when the sizes are those of the frames one by one. */
  lemma CutBySize(current: seq<Frame>, packets: uint32, frames: seq<Frame>, rest: seq<RxEvent>)
    requires EndsIn(packets, frames) && NoneEmptyPayload(DataFrames(frames))
    requires SizesOf([DataFrames(current + frames)] + DataOf(DispatchSegments([], 0, rest)))
          == FrameSizes(DataFrames(current), packets, frames + FramesOf(rest))
    ensures DataFrames(AfterEnd(packets, frames)) == []
    ensures DispatchSizes([], 0, rest) == FrameSizes([], 0, FramesOf(rest))
  {
    var data, tail := DataFrames(current), AfterEnd(packets, frames);
    var before := EndInFront(data, packets, frames, FramesOf(rest));
    DataFramesAppend(current, frames);
    FirstSizes(data + DataFrames(frames), DataOf(DispatchSegments([], 0, rest)),
               data + before, DataSegments([], 0, tail + FramesOf(rest)));
    TailShows(data, DataFrames(frames), before, DataFrames(tail));
    NoDataNoEnd(tail);
    NoEndInFront([], 0, tail, FramesOf(rest));
    assert [] + DataFrames(tail) == [];
    assert DataSegments([], 0, tail + FramesOf(rest)) == DataSegments([], 0, FramesOf(rest));
  }

  /** Segments that have the sizes of the data frame by frame come from clean cuts. */
  lemma {:induction false} SameSizesAreClean(current: seq<Frame>, packets: uint32, events: seq<RxEvent>)
    requires NoneEmptyPayload(DataFrames(FramesOf(events)))
    requires DispatchSizes(current, packets, events) == FrameSizes(DataFrames(current), packets, FramesOf(events))
    ensures CleanCuts(packets, events)
    decreases |events|
  {
    if events != [] && events[0].Dispatch? {
      var frames, rest := events[0].frames, events[1..];
      DataFramesAppend(current, frames);
      DataFramesAppend(frames, FramesOf(rest));
      NotEmptySplit(DataFrames(frames), DataFrames(FramesOf(rest)));
      if EndsIn(packets, frames) {
        CutBySize(current, packets, frames, rest);
        SameSizesAreClean([], 0, rest);
      } else {
        NoEndInFront(DataFrames(current), packets, frames, FramesOf(rest));
        SameSizesAreClean(current + frames, CountedAll(packets, frames), rest);
      }
    }
  }

  // ---------- Outputs ----------

  lemma {:induction false} SegmentsAreNotEmpty(current: seq<Frame>, packets: uint32, events: seq<RxEvent>)
    requires NoneEmptyPayload(DataFrames(current)) && NoneEmptyPayload(DataFrames(FramesOf(events)))
    ensures forall part :: part in DataOf(DispatchSegments(current, packets, events)) ==> NoneEmptyPayload(part)
    decreases |events|
  {
    if events != [] && events[0].Dispatch? {
      var frames, rest := events[0].frames, events[1..];
      DataFramesAppend(current, frames);
      DataFramesAppend(frames, FramesOf(rest));
      NotEmptySplit(DataFrames(frames), DataFrames(FramesOf(rest)));
      NotEmptySplit(DataFrames(current), DataFrames(frames));
      if EndsIn(packets, frames) {
        SegmentsAreNotEmpty([], 0, rest);
      } else {
        SegmentsAreNotEmpty(current + frames, CountedAll(packets, frames), rest);
      }
    }
  }

  /** Without noise an output is as long as its data, except for what the heap has no room for. */
  lemma OutputSize(cfg: RxConfig, frames: seq<Frame>)
    ensures Noiseless(cfg) ==> |RunOutput(cfg, frames)| <= DataSize(DataFrames(frames))
    ensures AllFitHeap(WindowsOf(cfg, frames)) ==> |RunOutput(cfg, frames)| >= DataSize(DataFrames(frames))
    ensures Noiseless(cfg) && NoneEmptyPayload(DataFrames(frames)) ==>
              |RunOutput(cfg, frames)| == DataSize(DataFrames(frames)) ==> AllFitHeap(WindowsOf(cfg, frames))
  {
    CaptureIsWindowedSort(cfg, frames);
    OutputHoldsKept(cfg, WindowsOf(cfg, frames));
    KeptOfCaptured(cfg, frames, Sizes(Kept(WindowsOf(cfg, frames))), DataSize(DataFrames(frames)));
  }

  /** No window of any capture overflows the heap. */
  ghost predicate CapturesFit(cfg: RxConfig, segments: seq<seq<Frame>>) {
    forall k :: 0 <= k < |segments| ==> AllFitHeap(WindowsOf(cfg, segments[k]))
  }

  ghost predicate AsLongAs(outputs: seq<seq<byte>>, files: seq<FileFrames>) {
    |outputs| == |files| && forall k :: 0 <= k < |files| ==> |outputs[k]| == DataSize(files[k].data)
  }

  ghost predicate AllFilesFit(cfg: RxConfig, files: seq<FileFrames>) {
    forall k :: 0 <= k < |files| ==> AllFitHeap(WindowsOf(cfg, files[k].data))
  }

  /**
   Outputs that are as long as the files leave no data for an unclean cut, unless noise makes up for what
   the heap dropped.
   */
  lemma LongOutputsAreClean(cfg: RxConfig, files: seq<FileFrames>, events: seq<RxEvent>)
    requires Noiseless(cfg) || CapturesFit(cfg, DispatchSegments([], 0, events))
    requires NoneEmptyPayload(DataFrames(FramesOf(events)))
    requires DataSegments([], 0, FramesOf(events)) == DataParts(files)
    requires AsLongAs(Outputs(cfg, DispatchSegments([], 0, events)), files)
    ensures CleanCuts(0, events)
  {
    var segments := DispatchSegments([], 0, events);
    var sent, got := SizesOf(DataParts(files)), DispatchSizes([], 0, events);
    forall k | 0 <= k < |files|
      ensures (Noiseless(cfg) ==> sent[k] <= got[k]) && (CapturesFit(cfg, segments) ==> got[k] <= sent[k])
    {
      OutputSize(cfg, segments[k]);
    }
    DispatchesHoldAll([], 0, events);
    FramesHoldAll([], 0, FramesOf(events));
    if Noiseless(cfg) {
      EqualSums(sent, got);
    } else {
      EqualSums(got, sent);
    }
    SameSizesAreClean([], 0, events);
  }

  /** Files that can be told apart frame by frame are cut cleanly if their outputs are as long as they. */
  lemma LengthsShowCleanCuts(cfg: RxConfig, files: seq<FileFrames>, events: seq<RxEvent>)
    requires files != [] && AllValid(files) && Countable(0, files) && Separated(files)
    requires Noiseless(cfg) || CapturesFit(cfg, DispatchSegments([], 0, events))
    requires Undisturbed(events) && FramesOf(events) == OnAir(files) && NoneEmptyPayload(DataFrames(OnAir(files)))
    ensures AsLongAs(Directory(cfg, events), files) ==> CleanCuts(0, events)
  {
    DirectorySplitsAtDispatches(cfg, events);
    SegmentsHoldData([], 0, FramesOf(events));
    SegmentsGroupFiles([], files);
    OneGroupPerFileExactly(files);
    if AsLongAs(Directory(cfg, events), files) {
      LongOutputsAreClean(cfg, files, events);
    }
  }

  /** When the captures hold the data of the files, outputs are as long as files if none overflows the heap. */
  lemma LongOutputsFit(cfg: RxConfig, files: seq<FileFrames>, segments: seq<seq<Frame>>)
    requires Noiseless(cfg) && DataOf(segments) == DataParts(files)
    requires forall part :: part in DataOf(segments) ==> NoneEmptyPayload(part)
    ensures AsLongAs(Outputs(cfg, segments), files) <==> AllFilesFit(cfg, files)
  {
    forall k | 0 <= k < |files|
      ensures |Outputs(cfg, segments)[k]| == DataSize(files[k].data) <==> AllFitHeap(WindowsOf(cfg, files[k].data))
    {
      assert DataOf(segments)[k] == DataFrames(segments[k]) == files[k].data;
      assert DataOf(segments)[k] in DataOf(segments);
      OutputSize(cfg, segments[k]);
      OnlyDataIsWritten(cfg, segments[k]);
    }
  }

  /**
   Without noise, files that can be told apart frame by frame come out with all the data that arrived of
   each exactly if dispatches cut cleanly and no window of a file overflows the heap.
   */
  lemma OutputsSeparateExactly(cfg: RxConfig, files: seq<FileFrames>, events: seq<RxEvent>)
    requires files != [] && AllValid(files) && Countable(0, files) && Separated(files) && Noiseless(cfg)
    requires Undisturbed(events) && FramesOf(events) == OnAir(files) && NoneEmptyPayload(DataFrames(OnAir(files)))
    ensures AsLongAs(Directory(cfg, events), files) <==> CleanCuts(0, events) && AllFilesFit(cfg, files)
  {
    DirectorySplitsAtDispatches(cfg, events);
    FilesSeparateExactly(files, events);
    SegmentsAreNotEmpty([], 0, events);
    LengthsShowCleanCuts(cfg, files, events);
    if CleanCuts(0, events) {
      LongOutputsFit(cfg, files, DispatchSegments([], 0, events));
    }
  }
}
