/** Radiotap headers are the capturing driver's: what a receiver makes of frames does not depend on them. */
module Radiotap {
  import opened Machine
  import opened Sequences
  import opened Wire
  import opened ReceiverModel
  import opened Windows
  import opened Delivery
  import opened Splitting
  import opened Reception

  /** From the MAC header up to the checksum the frames are the same. */
  predicate SameOnAir(a: Frame, b: Frame) {
    a[ItLen(a)..|a| - FCS_LEN] == b[ItLen(b)..|b| - FCS_LEN]
  }

  ghost predicate AllSameOnAir(a: seq<Frame>, b: seq<Frame>) {
    |a| == |b| && forall i :: 0 <= i < |a| ==> SameOnAir(a[i], b[i])
  }

  lemma SameReading(a: Frame, b: Frame)
    requires SameOnAir(a, b)
    ensures Payload(a) == Payload(b) && FrameNumber(a) == FrameNumber(b) && Classify(a) == Classify(b)
  {
    var x, y := a[ItLen(a)..|a| - FCS_LEN], b[ItLen(b)..|b| - FCS_LEN];
    assert |x| == |y|;
    assert Payload(a) == x[MAC_HEADER_LEN..] && Payload(b) == y[MAC_HEADER_LEN..];
    SliceOfSlice(a, ItLen(a), |a| - FCS_LEN, 6, 10);
    SliceOfSlice(b, ItLen(b), |b| - FCS_LEN, 6, 10);
  }

  lemma {:induction false} SameItems(cfg: RxConfig, packets: uint32, a: seq<Frame>, b: seq<Frame>)
    requires AllSameOnAir(a, b)
    ensures Items(Arrivals(cfg, packets, a)) == Items(Arrivals(cfg, packets, b))
    ensures PayloadsOf(DataFrames(a)) == PayloadsOf(DataFrames(b))
    decreases a
  {
    if a != [] {
      SameReading(a[0], b[0]);
      SameItems(cfg, if Classify(a[0]) == NoControl then U32(packets + 1) else packets, a[1..], b[1..]);
      DataCons(a);
      DataCons(b);
    }
  }

  lemma DataCons(frames: seq<Frame>)
    requires frames != []
    ensures PayloadsOf(DataFrames(frames)) == (if Classify(frames[0]) == NoControl then [Payload(frames[0])] else [])
                                            + PayloadsOf(DataFrames(frames[1..]))
  {
    var rest := DataFrames(frames[1..]);
    assert [] + rest == rest && ([frames[0]] + rest)[1..] == rest;
  }

  // ---------- One capture ----------

  /** The captures are cut into windows at the same frames. */
  ghost predicate SameCuts(cfg: RxConfig, a: seq<Frame>, b: seq<Frame>) {
    var va, vb := WindowsOf(cfg, a), WindowsOf(cfg, b);
    |va| == |vb| && forall k :: 0 <= k < |va| ==> |va[k]| == |vb[k]|
  }

  lemma {:induction false} SameLengthPieces<T>(a: seq<seq<T>>, b: seq<seq<T>>)
    requires |a| == |b| && Concat(a) == Concat(b) && forall k :: 0 <= k < |a| ==> |a[k]| == |b[k]|
    ensures a == b
  {
    if a != [] {
      assert a[0] == Concat(a)[..|a[0]|] == Concat(b)[..|b[0]|] == b[0];
      assert Concat(a[1..]) == Concat(a)[|a[0]|..] == Concat(b)[|b[0]|..] == Concat(b[1..]);
      SameLengthPieces(a[1..], b[1..]);
    }
  }

  /** Other radiotap headers and checksums leave a capture as it was, as long as the windows are cut alike. */
  lemma HeadersDoNotMatter(cfg: RxConfig, a: seq<Frame>, b: seq<Frame>)
    requires AllSameOnAir(a, b) && SameCuts(cfg, a, b)
    ensures RunOutput(cfg, a) == RunOutput(cfg, b)
  {
    SameItems(cfg, 0, a, b);
    WindowsCoverArrivals(cfg.pbSize, [], 0, Arrivals(cfg, 0, a));
    WindowsCoverArrivals(cfg.pbSize, [], 0, Arrivals(cfg, 0, b));
    SameLengthPieces(WindowsOf(cfg, a), WindowsOf(cfg, b));
    CaptureIsWindowedSort(cfg, a);
    CaptureIsWindowedSort(cfg, b);
  }

  /** Nor do the cuts matter to data in order that fits the heap. */
  lemma HeadersDoNotMatterInOrder(cfg: RxConfig, a: seq<Frame>, b: seq<Frame>)
    requires AllSameOnAir(a, b) && InOrder(cfg, DataFrames(a)) && InOrder(cfg, DataFrames(b))
    requires FitsHeap(cfg, DataFrames(a)) && FitsHeap(cfg, DataFrames(b))
    ensures RunOutput(cfg, a) == RunOutput(cfg, b)
  {
    SameItems(cfg, 0, a, b);
    InOrderReception(cfg, a, DataFrames(a));
    InOrderReception(cfg, b, DataFrames(b));
  }

  // ---------- A directory ----------

  /** Dispatches of the same frames apart from their radiotap headers and checksums. */
  ghost predicate SameSchedule(a: seq<RxEvent>, b: seq<RxEvent>) {
    if a == [] || !a[0].Dispatch? then a == b
    else
      && b != [] && b[0].Dispatch? && a[0].stop == b[0].stop && AllSameOnAir(a[0].frames, b[0].frames)
      && SameSchedule(a[1..], b[1..])
  }

  lemma {:induction false} SameEnds(packets: uint32, a: seq<Frame>, b: seq<Frame>)
    requires AllSameOnAir(a, b)
    ensures EndsIn(packets, a) == EndsIn(packets, b) && CountedAll(packets, a) == CountedAll(packets, b)
    decreases a
  {
    if a != [] {
      SameReading(a[0], b[0]);
      SameEnds(Counted(packets, a[0]), a[1..], b[1..]);
    }
  }

  /** The captures get the same frames apart from their radiotap headers and checksums. */
  ghost predicate SameSegments(a: seq<seq<Frame>>, b: seq<seq<Frame>>) {
    |a| == |b| && forall k :: 0 <= k < |a| ==> AllSameOnAir(a[k], b[k])
  }

  lemma {:induction false} SegmentsCorrespond(x: seq<Frame>, y: seq<Frame>, packets: uint32, a: seq<RxEvent>,
                                              b: seq<RxEvent>)
    requires AllSameOnAir(x, y) && SameSchedule(a, b)
    ensures SameSegments(DispatchSegments(x, packets, a), DispatchSegments(y, packets, b))
    decreases |a|
  {
    if a != [] && a[0].Dispatch? {
      var f, g := a[0].frames, b[0].frames;
      SameEnds(packets, f, g);
      assert AllSameOnAir(x + f, y + g);
      if EndsIn(packets, f) {
        SegmentsCorrespond([], [], 0, a[1..], b[1..]);
      } else {
        SegmentsCorrespond(x + f, y + g, CountedAll(packets, f), a[1..], b[1..]);
      }
    }
  }

  /** A directory capture does not depend on radiotap headers and checksums either. */
  lemma HeadersDoNotMatterInDirectory(cfg: RxConfig, a: seq<RxEvent>, b: seq<RxEvent>)
    requires Undisturbed(a) && Undisturbed(b) && SameSchedule(a, b)
    requires var va, vb := DispatchSegments([], 0, a), DispatchSegments([], 0, b);
             forall k :: 0 <= k < |va| && k < |vb| ==> SameCuts(cfg, va[k], vb[k])
    ensures Directory(cfg, a) == Directory(cfg, b)
  {
    var va, vb := DispatchSegments([], 0, a), DispatchSegments([], 0, b);
    SegmentsCorrespond([], [], 0, a, b);
    DirectorySplitsAtDispatches(cfg, a);
    DirectorySplitsAtDispatches(cfg, b);
    forall k | 0 <= k < |va| ensures RunOutput(cfg, va[k]) == RunOutput(cfg, vb[k]) {
      HeadersDoNotMatter(cfg, va[k], vb[k]);
    }
  }
}
