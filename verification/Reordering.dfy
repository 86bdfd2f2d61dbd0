/** Frames of one file that arrive in another order than they were sent in. */
module Reordering {
  import opened Machine
  import opened Sequences
  import opened Wire
  import opened Heap
  import opened ReceiverModel
  import opened Draining
  import opened Windows
  import opened Delivery
  import opened GapAccounting
  import opened LossAccounting
  import opened TransmitterModel
  import opened Transmission
  import opened Splitting
  import opened Channel
  import opened Reception
  import opened RoundTrip

  // ---------- Windows that rise ----------

  ghost predicate Below(a: seq<Item>, b: seq<Item>) {
    forall x, y :: x in a && y in b ==> x.number < y.number
  }

  /** The numbers of every window lie below those of all windows behind it. */
  ghost predicate Rising(windows: seq<seq<Item>>) {
    windows == [] || (Below(windows[0], Concat(windows[1..])) && Rising(windows[1..]))
  }

  lemma IncreasingSplit(a: seq<Item>, b: seq<Item>)
    ensures Increasing(a + b) <==> Increasing(a) && Increasing(b) && Below(a, b)
  {
    var all := a + b;
    assert forall i :: 0 <= i < |a| ==> a[i] == all[i];
    assert forall i :: 0 <= i < |b| ==> b[i] == all[|a| + i];
    if Increasing(all) {
      forall x, y | x in a && y in b ensures x.number < y.number {
        var i :| 0 <= i < |a| && a[i] == x;
        var j :| 0 <= j < |b| && b[j] == y;
        assert all[i].number < all[|a| + j].number;
      }
    }
  }

  lemma DistinctSplit(a: seq<Item>, b: seq<Item>)
    requires Distinct(a + b)
    ensures Distinct(a) && Distinct(b)
  {
    var all := a + b;
    assert forall i :: 0 <= i < |a| ==> a[i] == all[i];
    assert forall i :: 0 <= i < |b| ==> b[i] == all[|a| + i];
  }

  /** The items of all windows as the heap orders them. */
  function InHeapOrder(windows: seq<seq<Item>>): seq<Item> {
    Concat(HeapOrders(windows))
  }

  lemma HeapOrderStep(windows: seq<seq<Item>>)
    requires windows != []
    ensures InHeapOrder(windows) == HeapOrder(ByNumber, Keep(windows[0])) + InHeapOrder(windows[1..])
  {
  }

  /** A window in order, in front of a permutation `later` of what follows it. */
  lemma RiseStep(w: seq<Item>, order: seq<Item>, rest: seq<Item>, later: seq<Item>)
    requires Distinct(w) && Sorted(ByNumber, order) && multiset(order) == multiset(w)
    requires multiset(later) == multiset(rest)
    ensures multiset(order + later) == multiset(w + rest)
    ensures Increasing(order + later) <==> Below(w, rest) && Increasing(later)
  {
    SortedDistinctIncreases(w, order);
    IncreasingSplit(order, later);
    SameMembers(order, w);
    SameMembers(later, rest);
  }

  lemma DistinctTail(windows: seq<seq<Item>>)
    requires windows != [] && AllFitHeap(windows) && Distinct(Concat(windows))
    ensures |windows[0]| <= HEAP_CAPACITY && Distinct(windows[0])
    ensures AllFitHeap(windows[1..]) && Distinct(Concat(windows[1..]))
  {
    assert windows == [windows[0]] + windows[1..];
    FitsSplit(windows[0], windows[1..]);
    DistinctSplit(windows[0], Concat(windows[1..]));
  }

  lemma RiseFurther(windows: seq<seq<Item>>, first: seq<Item>, later: seq<Item>)
    requires windows != [] && Distinct(windows[0])
    requires Sorted(ByNumber, first) && multiset(first) == multiset(windows[0])
    requires multiset(later) == multiset(Concat(windows[1..])) && (Increasing(later) <==> Rising(windows[1..]))
    ensures multiset(first + later) == multiset(Concat(windows)) && (Increasing(first + later) <==> Rising(windows))
  {
    RiseStep(windows[0], first, Concat(windows[1..]), later);
  }

  /** Distinct numbers come out in increasing order exactly if the windows rise. */
  lemma {:induction false} OrdersRise(windows: seq<seq<Item>>, order: seq<Item>)
    requires AllFitHeap(windows) && Distinct(Concat(windows)) && order == InHeapOrder(windows)
    ensures multiset(order) == multiset(Concat(windows)) && (Increasing(order) <==> Rising(windows))
    decreases windows
  {
    if windows != [] {
      DistinctTail(windows);
      HeapOrderStep(windows);
      HeapOrderIsSortedPermutation(ByNumber, windows[0]);
      OrdersRise(windows[1..], InHeapOrder(windows[1..]));
      RiseFurther(windows, HeapOrder(ByNumber, windows[0]), InHeapOrder(windows[1..]));
    }
  }

  /** Some items, as many as there are exactly if the heap has room for all. */
  ghost predicate SomeOf(order: seq<Item>, windows: seq<seq<Item>>) {
    && |order| <= |Concat(windows)| && (|order| == |Concat(windows)| ==> AllFitHeap(windows))
    && forall x :: x in order ==> x in Concat(windows)
  }

  lemma SomeOfWindow(w: seq<Item>, first: seq<Item>)
    requires first == HeapOrder(ByNumber, Keep(w))
    ensures SomeOf(first, [w])
  {
    HeapOrderIsSortedPermutation(ByNumber, Keep(w));
    assert |multiset(first)| == |multiset(Keep(w))|;
    SameMembers(first, Keep(w));
    assert Concat([w]) == w + [] == w;
  }

  lemma SomeOfBoth(first: seq<Item>, w: seq<Item>, later: seq<Item>, rest: seq<seq<Item>>)
    requires SomeOf(first, [w]) && SomeOf(later, rest)
    ensures SomeOf(first + later, [w] + rest)
  {
    assert Concat([w]) == w + [] == w && w in [w];
    assert ([w] + rest)[1..] == rest;
    assert forall x :: x in first + later ==> x in w + Concat(rest);
    FitsSplit(w, rest);
  }

  /** An overfull window comes out without what the heap has no room for. */
  lemma {:induction false} HeapOrderCounts(windows: seq<seq<Item>>)
    ensures SomeOf(InHeapOrder(windows), windows)
  {
    if windows != [] {
      var first := HeapOrder(ByNumber, Keep(windows[0]));
      assert windows == [windows[0]] + windows[1..];
      HeapOrderStep(windows);
      HeapOrderCounts(windows[1..]);
      SomeOfWindow(windows[0], first);
      SomeOfBoth(first, windows[0], InHeapOrder(windows[1..]), windows[1..]);
    }
  }

  /**
   Items come out in the order of their numbers exactly if no window overflows the heap and the windows
   rise, however they are mixed within the windows.
   */
  lemma SentOrderExactly(windows: seq<seq<Item>>, sent: seq<Item>)
    requires Increasing(sent) && multiset(Concat(windows)) == multiset(sent)
    ensures InHeapOrder(windows) == sent <==> AllFitHeap(windows) && Rising(windows)
  {
    PermutationKeepsDistinct(Concat(windows), sent);
    assert |multiset(Concat(windows))| == |multiset(sent)|;
    HeapOrderCounts(windows);
    if AllFitHeap(windows) {
      OrdersRise(windows, InHeapOrder(windows));
      if Rising(windows) {
        DistinctDrainOrder(Concat(windows), InHeapOrder(windows));
        DistinctDrainOrder(Concat(windows), sent);
      }
    }
  }

  // ---------- What is written ----------

  lemma GaplessSplit(cfg: RxConfig, a: seq<Item>, b: seq<Item>)
    requires Gapless(cfg, a + b)
    ensures Gapless(cfg, a) && Gapless(cfg, b)
  {
    var all := a + b;
    if cfg.ordered && cfg.addNoise {
      forall i | 0 < i < |a| ensures a[i].number == Int32(a[i - 1].number + 1) {
        assert all[i].number == Int32(all[i - 1].number + 1);
      }
      forall i | 0 < i < |b| ensures b[i].number == Int32(b[i - 1].number + 1) {
        assert all[|a| + i].number == Int32(all[|a| + i - 1].number + 1);
      }
    }
  }

  lemma FirstGapless(cfg: RxConfig, windows: seq<seq<Item>>, order: seq<Item>, later: seq<Item>)
    requires windows != [] && order == InHeapOrder(windows) && later == InHeapOrder(windows[1..])
    requires Gapless(cfg, order)
    ensures Gapless(cfg, later)
    ensures Output(cfg, windows[1..]) == Concat(Payloads(later)) ==> Output(cfg, windows) == Concat(Payloads(order))
  {
    var first := HeapOrder(ByNumber, Keep(windows[0]));
    HeapOrderStep(windows);
    GaplessSplit(cfg, first, later);
    GaplessOrder(cfg, first);
    PayloadsAppend(first, later);
  }

  /** Without gaps to fill, the payloads come out in heap order. */
  lemma {:induction false} GaplessOutput(cfg: RxConfig, windows: seq<seq<Item>>, order: seq<Item>)
    requires order == InHeapOrder(windows) && Gapless(cfg, order)
    ensures Output(cfg, windows) == Concat(Payloads(order))
    decreases windows
  {
    if windows == [] {
      assert order == [] && Payloads(order) == [];
    } else {
      FirstGapless(cfg, windows, order, InHeapOrder(windows[1..]));
      GaplessOutput(cfg, windows[1..], InHeapOrder(windows[1..]));
    }
  }

  // ---------- One file ----------

  lemma SentItems(sent: seq<Frame>, blocks: seq<seq<byte>>)
    requires AreData(sent, blocks, 0, true) && |blocks| <= 0x8000_0000
    ensures var items := Map(NumberedItem, sent);
            Increasing(items) && Payloads(items) == blocks && forall i :: 0 <= i < |items| ==> items[i].number == i
  {
    var items := Map(NumberedItem, sent);
    forall i | 0 <= i < |items| ensures items[i] == Item(i, blocks[i]) {
      assert Carries(sent[i], blocks[i]) && FrameNumber(sent[i]) == U32(0 + i);
    }
  }

  lemma ArrivedItems(cfg: RxConfig, sent: seq<Frame>, arrived: seq<Frame>)
    requires cfg.ordered && multiset(DataFrames(arrived)) == multiset(sent)
    ensures multiset(Concat(WindowsOf(cfg, arrived))) == multiset(Map(NumberedItem, sent))
  {
    var arrivals := Arrivals(cfg, 0, arrived);
    WindowsCoverArrivals(cfg.pbSize, [], 0, arrivals);
    assert [] + Items(arrivals) == Items(arrivals);
    OrderedItems(cfg, 0, arrived);
    MapPermutation(NumberedItem, DataFrames(arrived), sent);
  }

  /** The data of a file in any order is put right if no window overflows the heap and the windows rise. */
  lemma RisingReception(cfg: RxConfig, sent: seq<Frame>, blocks: seq<seq<byte>>, arrived: seq<Frame>)
    requires AreData(sent, blocks, 0, true) && |blocks| <= 0x8000_0000
    requires cfg.ordered && multiset(DataFrames(arrived)) == multiset(sent)
    requires AllFitHeap(WindowsOf(cfg, arrived)) && Rising(WindowsOf(cfg, arrived))
    ensures RunOutput(cfg, arrived) == Concat(blocks)
  {
    SentItems(sent, blocks);
    ArrivedItems(cfg, sent, arrived);
    SentOrderExactly(WindowsOf(cfg, arrived), Map(NumberedItem, sent));
    NumbersWithoutGaps(cfg, sent, blocks);
    GaplessOutput(cfg, WindowsOf(cfg, arrived), Map(NumberedItem, sent));
    CaptureIsWindowedSort(cfg, arrived);
  }

  /** The data among the frames of a transmission that arrive in any order. */
  lemma ArrivedData(frames: seq<Frame>, blocks: seq<seq<byte>>, copies: nat, arrived: seq<Frame>)
    requires IsTransmission(frames, blocks, copies, true) && NoControlBlocks(blocks)
    requires multiset(arrived) == multiset(frames)
    ensures multiset(DataFrames(arrived)) == multiset(frames[copies..copies + |blocks|])
    ensures |DataFrames(arrived)| == |blocks|
  {
    TransmissionParts(frames, blocks, copies, true);
    DataFramesPermute(frames, arrived);
    assert |multiset(DataFrames(arrived))| == |multiset(DataFrames(frames))|;
  }

  lemma OneRunExactly(cfg: RxConfig, events: seq<RxEvent>)
    requires Undisturbed(events) && |DataFrames(FramesOf(events))| <= 0x8000_0000
    ensures |Directory(cfg, events)| == 1 <==> !PreambleBehindData(FramesOf(events))
    ensures !PreambleBehindData(FramesOf(events)) ==> Directory(cfg, events) == [RunOutput(cfg, FramesOf(events))]
  {
    EndsExactlyBehindData(0, FramesOf(events));
    OneOutputExactly(cfg, events);
    if !EndsIn(0, FramesOf(events)) {
      UnsplitCapture(cfg, events);
    }
  }

  /**
   An ordered capture puts a file of any size together from its frames in any order of arrival and in
   any dispatches, if its windows fit the heap and rise, exactly if no preamble stands behind a data frame.
   */
  lemma RisingRoundTrip(cfg: RxConfig, frames: seq<Frame>, blocks: seq<seq<byte>>, copies: nat, events: seq<RxEvent>)
    requires IsTransmission(frames, blocks, copies, true) && NoControlBlocks(blocks) && |blocks| <= 0x8000_0000
    requires cfg.ordered && Undisturbed(events) && multiset(FramesOf(events)) == multiset(frames)
    requires AllFitHeap(WindowsOf(cfg, FramesOf(events))) && Rising(WindowsOf(cfg, FramesOf(events)))
    ensures Directory(cfg, events) == [Concat(blocks)] <==> !PreambleBehindData(FramesOf(events))
  {
    ArrivedData(frames, blocks, copies, FramesOf(events));
    RisingReception(cfg, frames[copies..copies + |blocks|], blocks, FramesOf(events));
    OneRunExactly(cfg, events);
  }

  // ---------- Only rising windows ----------

  ghost predicate AllOfSize(blocks: seq<seq<byte>>, size: nat) {
    forall i :: 0 <= i < |blocks| ==> |blocks[i]| == size
  }

  lemma SomePieceShows(a: seq<seq<byte>>, size: nat)
    requires size > 0 && AllOfSize(a, size)
    ensures Concat(a) == [] ==> a == []
  {
    assert a != [] ==> |a[0]| == size;
  }

  lemma {:induction false} PiecesOfOneSize(a: seq<seq<byte>>, b: seq<seq<byte>>, size: nat)
    requires size > 0 && AllOfSize(a, size) && AllOfSize(b, size) && Concat(a) == Concat(b)
    ensures a == b
  {
    SomePieceShows(a, size);
    SomePieceShows(b, size);
    if a != [] {
      assert a[0] == Concat(a)[..size] == Concat(b)[..size] == b[0];
      assert Concat(a[1..]) == Concat(a)[size..] == Concat(b)[size..] == Concat(b[1..]);
      PiecesOfOneSize(a[1..], b[1..], size);
    }
  }

  /** Items that carry the payloads of `sent` in their order, each of them different, are `sent`. */
  lemma PayloadsTellItems(order: seq<Item>, sent: seq<Item>)
    requires NoDuplicates(Payloads(sent)) && Payloads(order) == Payloads(sent)
    requires forall x :: x in order ==> x in sent
    ensures order == sent
  {
    assert |Payloads(order)| == |order|;
    forall i | 0 <= i < |order| ensures order[i] == sent[i] {
      assert order[i] in sent;
      var j :| 0 <= j < |sent| && sent[j] == order[i];
      assert Payloads(sent)[j] == Payloads(order)[i] == Payloads(sent)[i];
    }
  }

  /** Blocks of one size and all different: without noise, only the order of the numbers writes the file. */
  lemma OutputTellsOrder(cfg: RxConfig, windows: seq<seq<Item>>, sent: seq<Item>, size: nat)
    requires Noiseless(cfg) && multiset(Concat(windows)) == multiset(sent)
    requires size > 0 && AllOfSize(Payloads(sent), size) && NoDuplicates(Payloads(sent))
    ensures Output(cfg, windows) == Concat(Payloads(sent)) <==> InHeapOrder(windows) == sent
  {
    var order := InHeapOrder(windows);
    GaplessOutput(cfg, windows, order);
    if Concat(Payloads(order)) == Concat(Payloads(sent)) {
      HeapOrderCounts(windows);
      SameMembers(Concat(windows), sent);
      forall i | 0 <= i < |order| ensures |Payloads(order)[i]| == size {
        assert order[i] in sent;
        var j :| 0 <= j < |sent| && sent[j] == order[i];
        assert Payloads(sent)[j] == order[i].payload;
      }
      PiecesOfOneSize(Payloads(order), Payloads(sent), size);
      PayloadsTellItems(order, sent);
    }
  }

  /** For blocks of one size that are all different, the windows must rise and fit the heap. */
  lemma RisingReceptionExactly(cfg: RxConfig, sent: seq<Frame>, blocks: seq<seq<byte>>, arrived: seq<Frame>, size: nat)
    requires AreData(sent, blocks, 0, true) && |blocks| <= 0x8000_0000 && cfg.ordered && Noiseless(cfg)
    requires multiset(DataFrames(arrived)) == multiset(sent)
    requires size > 0 && AllOfSize(blocks, size) && NoDuplicates(blocks)
    ensures RunOutput(cfg, arrived) == Concat(blocks)
       <==> AllFitHeap(WindowsOf(cfg, arrived)) && Rising(WindowsOf(cfg, arrived))
  {
    var windows, items := WindowsOf(cfg, arrived), Map(NumberedItem, sent);
    SentItems(sent, blocks);
    ArrivedItems(cfg, sent, arrived);
    SentOrderExactly(windows, items);
    OutputTellsOrder(cfg, windows, items, size);
    CaptureIsWindowedSort(cfg, arrived);
  }

  /**
   Without noise, a file whose blocks have one size and are all different comes out of an ordered capture
   of its frames in any order exactly if no preamble stands behind a data frame, no window overflows the
   heap, and the windows rise.
   */
  lemma ReorderedRoundTripExactly(cfg: RxConfig, frames: seq<Frame>, blocks: seq<seq<byte>>, copies: nat,
                                  events: seq<RxEvent>, size: nat)
    requires IsTransmission(frames, blocks, copies, true) && NoControlBlocks(blocks) && |blocks| <= 0x8000_0000
    requires cfg.ordered && Noiseless(cfg) && Undisturbed(events) && multiset(FramesOf(events)) == multiset(frames)
    requires size > 0 && AllOfSize(blocks, size) && NoDuplicates(blocks)
    ensures Directory(cfg, events) == [Concat(blocks)]
       <==> && !PreambleBehindData(FramesOf(events))
            && AllFitHeap(WindowsOf(cfg, FramesOf(events))) && Rising(WindowsOf(cfg, FramesOf(events)))
  {
    ArrivedData(frames, blocks, copies, FramesOf(events));
    RisingReceptionExactly(cfg, frames[copies..copies + |blocks|], blocks, FramesOf(events), size);
    OneRunExactly(cfg, events);
  }

  /** Block 0 arrives behind block 1 and in the next window: it is written behind it. */
  lemma LateBlockIsMisplaced(noise: byte)
    ensures var cfg := RxConfig(true, false, noise, MTU);
            var first, second := Fill(BLOCK_SIZE_MAX, 1), Fill(BLOCK_SIZE_MAX, 2);
            && RunOutput(cfg, [PlainFrame(1, second), PlainFrame(0, first)]) == second + first
            && second + first != first + second
  {
    var cfg := RxConfig(true, false, noise, MTU);
    var first, second: seq<byte> := Fill(BLOCK_SIZE_MAX, 1), Fill(BLOCK_SIZE_MAX, 2);
    TwoWindows(cfg, PlainFrame(1, second), PlainFrame(0, first));
    assert (second + first)[0] == 2 && (first + second)[0] == 1;
  }

  // ---------- All data in one window ----------

  lemma {:induction false} SentLength(frames: seq<Frame>, blocks: seq<seq<byte>>, first: nat, numbered: bool)
    requires AreData(frames, blocks, first, numbered)
    ensures TotalLength(frames) == |Concat(blocks)| + (TX_HEADER_LEN + FCS_LEN) * |blocks|
    decreases frames
  {
    if frames != [] {
      assert Carries(frames[0], blocks[0]);
      DataTail(frames, blocks, first, numbered);
      SentLength(frames[1..], blocks[1..], first + 1, numbered);
    }
  }

  lemma OneWindowFitsHeap(cfg: RxConfig, frames: seq<Frame>)
    requires FitsHeap(cfg, DataFrames(frames)) && TotalLength(DataFrames(frames)) < cfg.pbSize
    ensures |DataFrames(frames)| <= HEAP_CAPACITY
  {
    OnlyDataIsWritten(cfg, frames);
    AllInOneWindow(cfg, frames);
  }

  /** The frames of a file that all fit the packet buffer, in any order, make one window that fits the heap. */
  lemma OneRisingWindow(cfg: RxConfig, frames: seq<Frame>, blocks: seq<seq<byte>>, copies: nat, arrived: seq<Frame>)
    requires IsTransmission(frames, blocks, copies, true) && NoControlBlocks(blocks) && LongBlocks(blocks)
    requires |Concat(blocks)| + (TX_HEADER_LEN + FCS_LEN) * |blocks| < cfg.pbSize <= PACKET_BUFFER_MAX
    requires multiset(arrived) == multiset(frames)
    ensures AllFitHeap(WindowsOf(cfg, arrived)) && Rising(WindowsOf(cfg, arrived))
  {
    var sent := frames[copies..copies + |blocks|];
    TransmissionParts(frames, blocks, copies, true);
    SentFitsHeap(cfg, sent, blocks, true);
    SentLength(sent, blocks, 0, true);
    OneWindowFitsHeap(cfg, frames);
    DataFramesPermute(frames, arrived);
    TotalLengthPermutes(sent, DataFrames(arrived));
    assert |multiset(DataFrames(arrived))| == |multiset(sent)|;
    AllInOneWindow(cfg, arrived);
    assert WindowsOf(cfg, arrived)[1..] == [];
  }

  /**
   An ordered capture puts a file together from its frames in any order of arrival and in any
   dispatches exactly if no preamble stands behind a data frame, as long as all data fits the packet
   buffer at once.
   */
  lemma AnyOrderRoundTrip(cfg: RxConfig, frames: seq<Frame>, blockSize: nat, file: seq<byte>, copies: nat,
                          events: seq<RxEvent>)
    requires blockSize >= BLOCK_SIZE_MIN && |Chunks(blockSize, file)| <= 0x8000_0000
    requires IsTransmission(frames, Chunks(blockSize, file), copies, true)
    requires NoControlBlocks(Chunks(blockSize, file))
    requires |file| + (TX_HEADER_LEN + FCS_LEN) * |Chunks(blockSize, file)| < cfg.pbSize <= PACKET_BUFFER_MAX
    requires cfg.ordered && Undisturbed(events) && multiset(FramesOf(events)) == multiset(frames)
    ensures Directory(cfg, events) == [file] <==> !PreambleBehindData(FramesOf(events))
  {
    var blocks := Chunks(blockSize, file);
    ChunksAreLong(blockSize, file);
    OneRisingWindow(cfg, frames, blocks, copies, FramesOf(events));
    RisingRoundTrip(cfg, frames, blocks, copies, events);
  }

  /** Data that arrives before the preambles is such an arrival: the file is not the only output. */
  lemma PreamblesLastFails(cfg: RxConfig, frames: seq<Frame>, blockSize: nat, file: seq<byte>, copies: nat,
                           events: seq<RxEvent>)
    requires blockSize >= BLOCK_SIZE_MIN && |Chunks(blockSize, file)| <= 0x8000_0000
    requires IsTransmission(frames, Chunks(blockSize, file), copies, true)
    requires NoControlBlocks(Chunks(blockSize, file)) && file != [] && copies > 0
    requires |file| + (TX_HEADER_LEN + FCS_LEN) * |Chunks(blockSize, file)| < cfg.pbSize <= PACKET_BUFFER_MAX
    requires cfg.ordered && Undisturbed(events)
    requires var parts := PartsOf(frames, copies, |Chunks(blockSize, file)|);
             FramesOf(events) == parts.data + parts.preambles + parts.eots
    ensures multiset(FramesOf(events)) == multiset(frames) && Directory(cfg, events) != [file]
  {
    var blocks := Chunks(blockSize, file);
    PartsJoin(frames, copies, |blocks|);
    TransmissionParts(frames, blocks, copies, true);
    DataFirst(PartsOf(frames, copies, |blocks|));
    AnyOrderRoundTrip(cfg, frames, blockSize, file, copies, events);
  }

  lemma DataFirst(f: FileFrames)
    requires f.Valid() && f.preambles != [] && f.data != []
    ensures var arrived := f.data + f.preambles + f.eots;
            multiset(arrived) == multiset(f.Frames()) && PreambleBehindData(arrived)
  {
    var arrived := f.data + f.preambles + f.eots;
    assert arrived[0] == f.data[0] && arrived[|f.data|] == f.preambles[0];
    assert Classify(arrived[0]) == NoControl && Classify(arrived[|f.data|]) == Preamble;
  }
}
