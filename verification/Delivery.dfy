/** What a capture delivers: order, independence of buffer size and of arrival order. */
module Delivery {
  import opened Machine
  import opened Sequences
  import opened Wire
  import opened Heap
  import opened ReceiverModel
  import opened Draining
  import opened Windows

  /** A whole run and the final flush, from a fresh frame controller. */
  function RunOutput(cfg: RxConfig, frames: seq<Frame>): seq<byte> {
    Written(cfg, INIT, frames)
  }

  function WindowsOf(cfg: RxConfig, frames: seq<Frame>): seq<seq<Item>> {
    Windowed(cfg.pbSize, [], 0, Arrivals(cfg, 0, frames))
  }

  /** The capture loop equals: cut into windows, sort each one, fill gaps, concatenate. */
  lemma CaptureIsWindowedSort(cfg: RxConfig, frames: seq<Frame>)
    ensures RunOutput(cfg, frames) == Output(cfg, WindowsOf(cfg, frames))
  {
    RunRefinesWindows(cfg, INIT, frames, []);
  }

  /** A sorted permutation of what the heap keeps of a window. */
  ghost predicate Sorts(order: seq<Item>, window: seq<Item>) {
    Sorted(ByNumber, order) && multiset(order) == multiset(Keep(window))
  }

  ghost predicate SortsAll(orders: seq<seq<Item>>, windows: seq<seq<Item>>) {
    |orders| == |windows| && forall k :: 0 <= k < |orders| ==> Sorts(orders[k], windows[k])
  }

  function AllOrderBytes(cfg: RxConfig, orders: seq<seq<Item>>): seq<byte> {
    if orders == [] then [] else OrderBytes(cfg, orders[0]) + AllOrderBytes(cfg, orders[1..])
  }

  function HeapOrders(windows: seq<seq<Item>>): (orders: seq<seq<Item>>)
    ensures |orders| == |windows|
    ensures forall k :: 0 <= k < |orders| ==> orders[k] == HeapOrder(ByNumber, Keep(windows[k]))
  {
    if windows == [] then [] else [HeapOrder(ByNumber, Keep(windows[0]))] + HeapOrders(windows[1..])
  }

  lemma {:induction false} OutputIsOrdered(cfg: RxConfig, windows: seq<seq<Item>>)
    ensures Output(cfg, windows) == AllOrderBytes(cfg, HeapOrders(windows))
  {
    if windows != [] {
      OutputIsOrdered(cfg, windows[1..]);
    }
  }

  /** Every capture writes sorted permutations of its windows, one each, one after the other. */
  lemma CaptureSortsItsWindows(cfg: RxConfig, frames: seq<Frame>)
    ensures exists orders :: SortsAll(orders, WindowsOf(cfg, frames)) &&
                             RunOutput(cfg, frames) == AllOrderBytes(cfg, orders)
  {
    var windows := WindowsOf(cfg, frames);
    var orders := HeapOrders(windows);
    CaptureIsWindowedSort(cfg, frames);
    OutputIsOrdered(cfg, windows);
    forall k | 0 <= k < |orders| ensures Sorts(orders[k], windows[k]) {
      HeapOrderIsSortedPermutation(ByNumber, Keep(windows[k]));
    }
  }

  /** A window without duplicates has one sorted permutation only. */
  lemma WindowOrder(window: seq<Item>, order: seq<Item>)
    requires Distinct(window) && Sorts(order, window)
    ensures order == HeapOrder(ByNumber, Keep(window))
  {
    DistinctDrainOrder(Keep(window), order);
  }

  /** Without duplicates inside a window, any sorted permutations are those that the capture writes. */
  lemma AnySortingIsWritten(cfg: RxConfig, frames: seq<Frame>, orders: seq<seq<Item>>)
    requires SortsAll(orders, WindowsOf(cfg, frames))
    requires forall w :: w in WindowsOf(cfg, frames) ==> Distinct(w)
    ensures RunOutput(cfg, frames) == AllOrderBytes(cfg, orders)
  {
    var windows := WindowsOf(cfg, frames);
    CaptureIsWindowedSort(cfg, frames);
    OutputIsOrdered(cfg, windows);
    forall k | 0 <= k < |orders| ensures orders[k] == HeapOrders(windows)[k] {
      assert windows[k] in windows;
      WindowOrder(windows[k], orders[k]);
    }
    assert orders == HeapOrders(windows);
  }

  // ---------- Windows cover the arrivals and fit the heap ----------

  function Items(arrivals: seq<Arrival>): seq<Item> {
    if arrivals == [] then [] else [arrivals[0].item] + Items(arrivals[1..])
  }

  lemma {:induction false} WindowsCoverArrivals(pbSize: nat, current: seq<Item>, used: nat, arrivals: seq<Arrival>)
    ensures Concat(Windowed(pbSize, current, used, arrivals)) == current + Items(arrivals)
    decreases arrivals
  {
    if arrivals == [] {
      assert Concat([current]) == current + [];
    } else {
      var a := arrivals[0];
      if used + a.capLen >= pbSize {
        WindowsCoverArrivals(pbSize, [a.item], a.capLen, arrivals[1..]);
      } else {
        WindowsCoverArrivals(pbSize, current + [a.item], used + a.capLen, arrivals[1..]);
        Associative(current, [a.item], Items(arrivals[1..]));
      }
    }
  }

  ghost predicate AllFitHeap(windows: seq<seq<Item>>) {
    forall w :: w in windows ==> |w| <= HEAP_CAPACITY
  }

  function Short(capLen: nat): nat {
    if capLen < BLOCK_SIZE_MIN then 1 else 0
  }

  /** No window holds more than one frame shorter than the least block size. */
  predicate OneShortPerWindow(pbSize: nat, used: nat, short: nat, arrivals: seq<Arrival>)
    decreases arrivals
  {
    && short <= 1
    && (arrivals != [] ==>
          var n := arrivals[0].capLen;
          if used + n >= pbSize then OneShortPerWindow(pbSize, n, Short(n), arrivals[1..])
          else OneShortPerWindow(pbSize, used + n, short + Short(n), arrivals[1..]))
  }

  /**
   The heap is large enough: with an admissible buffer size and at most one short frame buffered at
   a time, no window ever holds more nodes than the heap.
   */
  lemma {:induction false} HeapNeverOverflows(pbSize: nat, current: seq<Item>, used: nat, arrivals: seq<Arrival>,
                                              short: nat)
    requires pbSize <= PACKET_BUFFER_MAX
    requires BLOCK_SIZE_MIN * |current| <= used + BLOCK_SIZE_MIN * short
    requires |current| <= 1 || used < pbSize
    requires OneShortPerWindow(pbSize, used, short, arrivals)
    ensures AllFitHeap(Windowed(pbSize, current, used, arrivals))
    decreases arrivals
  {
    assert |current| <= HEAP_CAPACITY;
    if arrivals != [] {
      var a := arrivals[0];
      if used + a.capLen >= pbSize {
        HeapNeverOverflows(pbSize, [a.item], a.capLen, arrivals[1..], Short(a.capLen));
      } else {
        HeapNeverOverflows(pbSize, current + [a.item], used + a.capLen, arrivals[1..], short + Short(a.capLen));
      }
    }
  }

  /** Nor does it overflow when all the data has no more frames than the heap has room for. */
  lemma {:induction false} FewArrivalsFit(pbSize: nat, current: seq<Item>, used: nat, arrivals: seq<Arrival>)
    requires |current| + |arrivals| <= HEAP_CAPACITY
    ensures AllFitHeap(Windowed(pbSize, current, used, arrivals))
    decreases arrivals
  {
    if arrivals != [] {
      var a := arrivals[0];
      if used + a.capLen >= pbSize {
        FewArrivalsFit(pbSize, [a.item], a.capLen, arrivals[1..]);
      } else {
        FewArrivalsFit(pbSize, current + [a.item], used + a.capLen, arrivals[1..]);
      }
    }
  }

  // ---------- In-order arrival ----------

  /** What the heap has room for of each window. */
  function Kept(windows: seq<seq<Item>>): seq<Item> {
    if windows == [] then [] else Keep(windows[0]) + Kept(windows[1..])
  }

  lemma {:induction false} InOrderOutput(cfg: RxConfig, windows: seq<seq<Item>>)
    requires Increasing(Concat(windows)) && Gapless(cfg, Concat(windows))
    ensures Output(cfg, windows) == Concat(Payloads(Kept(windows)))
  {
    if windows != [] {
      var w, rest := windows[0], Concat(windows[1..]);
      var kept := Keep(w);
      assert Concat(windows) == w + rest && w == kept + w[|kept|..];
      SplitInOrder(cfg, w, rest);
      SplitInOrder(cfg, kept, w[|kept|..]);
      InOrderDrain(cfg, kept);
      InOrderOutput(cfg, windows[1..]);
      PayloadsAppend(kept, Kept(windows[1..]));
    }
  }

  ghost predicate NoneHollow(items: seq<Item>) {
    forall it :: it in items ==> it.payload != []
  }

  lemma {:induction false} HollowSizes(items: seq<Item>)
    requires NoneHollow(items)
    ensures Sizes(items) >= |items|
  {
    if items != [] {
      assert items[0] in items;
      HollowSizes(items[1..]);
    }
  }

  /** A window that overflows the heap loses payload. */
  lemma KeepSizes(w: seq<Item>)
    ensures Sizes(Keep(w)) <= Sizes(w)
    ensures NoneHollow(w) && Sizes(Keep(w)) == Sizes(w) ==> |w| <= HEAP_CAPACITY
  {
    var kept, dropped := Keep(w), w[|Keep(w)|..];
    assert w == kept + dropped;
    SizesAppend(kept, dropped);
    if NoneHollow(w) {
      assert forall it :: it in dropped ==> it in w;
      HollowSizes(dropped);
    }
  }

  /** All payload is kept if every window fits the heap, and only then, except for empty payloads. */
  lemma {:induction false} KeptIsAllExactly(windows: seq<seq<Item>>)
    ensures AllFitHeap(windows) ==> Kept(windows) == Concat(windows)
    ensures Sizes(Kept(windows)) <= Sizes(Concat(windows))
    ensures NoneHollow(Concat(windows)) && Sizes(Kept(windows)) == Sizes(Concat(windows)) ==> AllFitHeap(windows)
    decreases windows
  {
    if windows != [] {
      var w, rest := windows[0], windows[1..];
      KeptIsAllExactly(rest);
      KeepSizes(w);
      SizesAppend(Keep(w), Kept(rest));
      SizesAppend(w, Concat(rest));
      FitsSplit(w, rest);
      HollowSplit(w, Concat(rest));
      assert windows == [w] + rest;
    }
  }

  lemma FitsSplit(w: seq<Item>, rest: seq<seq<Item>>)
    ensures AllFitHeap([w] + rest) <==> |w| <= HEAP_CAPACITY && AllFitHeap(rest)
  {
    var all := [w] + rest;
    assert forall x :: x in all <==> x == w || x in rest;
  }

  lemma HollowSplit(a: seq<Item>, b: seq<Item>)
    ensures NoneHollow(a + b) <==> NoneHollow(a) && NoneHollow(b)
  {
    assert forall x :: x in a + b <==> x in a || x in b;
  }

  lemma PayloadsAppend(a: seq<Item>, b: seq<Item>)
    ensures Concat(Payloads(a + b)) == Concat(Payloads(a)) + Concat(Payloads(b))
  {
    assert Payloads(a + b) == Payloads(a) + Payloads(b);
    ConcatAppend(Payloads(a), Payloads(b));
  }

  lemma SplitInOrder(cfg: RxConfig, a: seq<Item>, b: seq<Item>)
    requires Increasing(a + b) && Gapless(cfg, a + b)
    ensures Increasing(a) && Increasing(b) && Gapless(cfg, a) && Gapless(cfg, b)
  {
    var all := a + b;
    assert forall i :: 0 <= i < |a| ==> a[i] == all[i];
    assert forall i :: 0 <= i < |b| ==> b[i] == all[|a| + i];
    if cfg.ordered && cfg.addNoise {
      forall i | 0 < i < |b| ensures b[i].number == Int32(b[i - 1].number + 1) {
        assert all[|a| + i].number == Int32(all[|a| + i - 1].number + 1);
      }
    }
  }

  /**
   Frames that arrive in increasing order, with no gap to fill, are delivered as they came, but for
   those that the heap has no room for.
   */
  lemma InOrderDelivery(cfg: RxConfig, frames: seq<Frame>, items: seq<Item>)
    requires items == Items(Arrivals(cfg, 0, frames)) && Increasing(items) && Gapless(cfg, items)
    ensures RunOutput(cfg, frames) == Concat(Payloads(Kept(WindowsOf(cfg, frames))))
    ensures AllFitHeap(WindowsOf(cfg, frames)) ==> RunOutput(cfg, frames) == Concat(Payloads(items))
    ensures NoneHollow(items) && |RunOutput(cfg, frames)| == Sizes(items) ==> AllFitHeap(WindowsOf(cfg, frames))
  {
    var windows := WindowsOf(cfg, frames);
    CaptureIsWindowedSort(cfg, frames);
    WindowsCoverArrivals(cfg.pbSize, [], 0, Arrivals(cfg, 0, frames));
    assert [] + items == items;
    InOrderOutput(cfg, windows);
    KeptIsAllExactly(windows);
    PayloadsSize(Kept(windows));
  }

  // ---------- Unordered captures ----------

  function DataFrames(frames: seq<Frame>): seq<Frame> {
    if frames == [] then []
    else (if Classify(frames[0]) == NoControl then [frames[0]] else []) + DataFrames(frames[1..])
  }

  function PayloadsOf(frames: seq<Frame>): (r: seq<seq<byte>>)
    ensures |r| == |frames|
  {
    if frames == [] then [] else [Payload(frames[0])] + PayloadsOf(frames[1..])
  }

  lemma {:induction false} ArrivalPayloads(cfg: RxConfig, packets: uint32, frames: seq<Frame>)
    ensures Payloads(Items(Arrivals(cfg, packets, frames))) == PayloadsOf(DataFrames(frames))
    decreases frames
  {
    if frames != [] {
      if Classify(frames[0]) != NoControl {
        ArrivalPayloads(cfg, packets, frames[1..]);
        assert [] + DataFrames(frames[1..]) == DataFrames(frames[1..]);
      } else {
        ArrivalPayloads(cfg, U32(packets + 1), frames[1..]);
        PayloadsCons(Items(Arrivals(cfg, packets, frames)));
        assert DataFrames(frames) == [frames[0]] + DataFrames(frames[1..]);
      }
    }
  }

  /** In an unordered capture the keys count up from `packets`. */
  lemma {:induction false} UnorderedKeys(cfg: RxConfig, packets: uint32, frames: seq<Frame>)
    requires !cfg.ordered && packets + |DataFrames(frames)| <= 0x8000_0000
    ensures var items := Items(Arrivals(cfg, packets, frames));
            |items| == |DataFrames(frames)| && forall i :: 0 <= i < |items| ==> items[i].number == packets + i
    decreases frames
  {
    if frames != [] {
      if Classify(frames[0]) != NoControl {
        UnorderedKeys(cfg, packets, frames[1..]);
        assert [] + DataFrames(frames[1..]) == DataFrames(frames[1..]);
      } else {
        assert DataFrames(frames) == [frames[0]] + DataFrames(frames[1..]);
        UnorderedKeys(cfg, U32(packets + 1), frames[1..]);
        var items := Items(Arrivals(cfg, packets, frames));
        assert items[1..] == Items(Arrivals(cfg, U32(packets + 1), frames[1..]));
        assert forall i :: 0 < i < |items| ==> items[i] == items[1..][i - 1];
      }
    }
  }

  ghost predicate NoneEmptyPayload(frames: seq<Frame>) {
    forall i :: 0 <= i < |frames| ==> Payload(frames[i]) != []
  }

  lemma {:induction false} PayloadAt(frames: seq<Frame>, i: nat)
    requires i < |frames|
    ensures PayloadsOf(frames)[i] == Payload(frames[i])
  {
    if i > 0 {
      PayloadAt(frames[1..], i - 1);
    }
  }

  lemma DataIsNotHollow(cfg: RxConfig, frames: seq<Frame>)
    requires NoneEmptyPayload(DataFrames(frames))
    ensures NoneHollow(Items(Arrivals(cfg, 0, frames)))
  {
    var items, data := Items(Arrivals(cfg, 0, frames)), DataFrames(frames);
    ArrivalPayloads(cfg, 0, frames);
    assert |Payloads(items)| == |PayloadsOf(data)|;
    forall it | it in items ensures it.payload != [] {
      var i :| 0 <= i < |items| && items[i] == it;
      assert Payloads(items)[i] == it.payload;
      PayloadAt(data, i);
    }
  }

  /** The payload captured, and the payload that the heap keeps. */
  lemma KeptOfCaptured(cfg: RxConfig, frames: seq<Frame>, kept: nat, captured: nat)
    requires kept == Sizes(Kept(WindowsOf(cfg, frames)))
    requires captured == |Concat(PayloadsOf(DataFrames(frames)))|
    ensures kept <= captured
    ensures AllFitHeap(WindowsOf(cfg, frames)) ==> kept == captured
    ensures NoneEmptyPayload(DataFrames(frames)) && kept == captured ==> AllFitHeap(WindowsOf(cfg, frames))
  {
    var arrivals := Arrivals(cfg, 0, frames);
    WindowsCoverArrivals(cfg.pbSize, [], 0, arrivals);
    assert [] + Items(arrivals) == Items(arrivals);
    KeptIsAllExactly(WindowsOf(cfg, frames));
    ArrivalPayloads(cfg, 0, frames);
    PayloadsSize(Items(arrivals));
    if NoneEmptyPayload(DataFrames(frames)) {
      DataIsNotHollow(cfg, frames);
    }
  }

  /** Delivery of data in order: complete if no window overflows the heap, and only then. */
  lemma DeliveryExactly(cfg: RxConfig, frames: seq<Frame>, items: seq<Item>)
    requires items == Items(Arrivals(cfg, 0, frames)) && Increasing(items) && Gapless(cfg, items)
    ensures AllFitHeap(WindowsOf(cfg, frames)) ==> RunOutput(cfg, frames) == Concat(PayloadsOf(DataFrames(frames)))
    ensures NoneEmptyPayload(DataFrames(frames)) && RunOutput(cfg, frames) == Concat(PayloadsOf(DataFrames(frames)))
        ==> AllFitHeap(WindowsOf(cfg, frames))
  {
    ArrivalPayloads(cfg, 0, frames);
    InOrderDelivery(cfg, frames, items);
    PayloadsSize(items);
    if NoneEmptyPayload(DataFrames(frames)) {
      DataIsNotHollow(cfg, frames);
    }
  }

  /**
   An unordered capture is first in, first out, whatever the size of the packet buffer, if no window
   overflows the heap, and, blocks not being empty, only then.
   */
  lemma UnorderedIsFifo(cfg: RxConfig, frames: seq<Frame>)
    requires !cfg.ordered && |DataFrames(frames)| <= 0x8000_0000
    ensures AllFitHeap(WindowsOf(cfg, frames)) ==> RunOutput(cfg, frames) == Concat(PayloadsOf(DataFrames(frames)))
    ensures NoneEmptyPayload(DataFrames(frames)) && RunOutput(cfg, frames) == Concat(PayloadsOf(DataFrames(frames)))
        ==> AllFitHeap(WindowsOf(cfg, frames))
  {
    UnorderedKeys(cfg, 0, frames);
    DeliveryExactly(cfg, frames, Items(Arrivals(cfg, 0, frames)));
  }

  /** The output is as long as what the heap keeps of the windows, and the noise. */
  lemma {:induction false} OutputHoldsKept(cfg: RxConfig, windows: seq<seq<Item>>)
    ensures |Output(cfg, windows)| >= Sizes(Kept(windows))
    ensures Noiseless(cfg) ==> |Output(cfg, windows)| == Sizes(Kept(windows))
  {
    if windows != [] {
      var order := HeapOrder(ByNumber, Keep(windows[0]));
      OutputHoldsKept(cfg, windows[1..]);
      OrderSizes(Keep(windows[0]));
      if order != [] {
        BytesSize(cfg, order[0].number, order);
      }
      SizesAppend(Keep(windows[0]), Kept(windows[1..]));
    }
  }

  /** The 32-bit counter is where first-in-first-out ends: the key after 2^31 - 1 is the least of all. */
  lemma KeysIncreaseExactlyUntilTheSignFlips(cfg: RxConfig, f: Frame, packets: uint32)
    requires !cfg.ordered
    ensures Key(cfg, f, packets) < Key(cfg, f, U32(packets + 1)) <==> packets != 0x7fff_ffff
  {
  }

  /** Control frames leave no trace in the windows. */
  lemma {:induction false} ArrivalsOfData(cfg: RxConfig, packets: uint32, frames: seq<Frame>)
    ensures Arrivals(cfg, packets, frames) == Arrivals(cfg, packets, DataFrames(frames))
    ensures |Arrivals(cfg, packets, frames)| == |DataFrames(frames)|
    decreases frames
  {
    if frames != [] {
      var rest := DataFrames(frames[1..]);
      if Classify(frames[0]) != NoControl {
        ArrivalsOfData(cfg, packets, frames[1..]);
        assert [] + rest == rest;
      } else {
        ArrivalsOfData(cfg, U32(packets + 1), frames[1..]);
        assert ([frames[0]] + rest)[1..] == rest;
      }
    }
  }

  lemma OnlyDataIsWritten(cfg: RxConfig, frames: seq<Frame>)
    ensures RunOutput(cfg, frames) == RunOutput(cfg, DataFrames(frames))
    ensures WindowsOf(cfg, frames) == WindowsOf(cfg, DataFrames(frames))
  {
    ArrivalsOfData(cfg, 0, frames);
    CaptureIsWindowedSort(cfg, frames);
    CaptureIsWindowedSort(cfg, DataFrames(frames));
  }

  // ---------- Captures that fit one window ----------

  function TotalLength(frames: seq<Frame>): nat {
    if frames == [] then 0 else |frames[0]| + TotalLength(frames[1..])
  }

  function NumberedItem(f: Frame): Item {
    Item(Int32(FrameNumber(f)), Payload(f))
  }

  lemma {:induction false} OrderedItems(cfg: RxConfig, packets: uint32, frames: seq<Frame>)
    requires cfg.ordered
    ensures Items(Arrivals(cfg, packets, frames)) == Map(NumberedItem, DataFrames(frames))
    decreases frames
  {
    if frames != [] {
      var f, rest := frames[0], DataFrames(frames[1..]);
      if Classify(f) != NoControl {
        OrderedItems(cfg, packets, frames[1..]);
        assert [] + rest == rest;
      } else {
        OrderedItems(cfg, U32(packets + 1), frames[1..]);
        MapCons(NumberedItem, f, rest);
      }
    }
  }

  /** Data that fits the packet buffer at once makes one window. */
  lemma {:induction false} OneWindow(cfg: RxConfig, current: seq<Item>, used: nat, packets: uint32, frames: seq<Frame>)
    requires used + TotalLength(DataFrames(frames)) < cfg.pbSize
    ensures Windowed(cfg.pbSize, current, used, Arrivals(cfg, packets, frames))
         == [current + Items(Arrivals(cfg, packets, frames))]
    decreases frames
  {
    if frames == [] {
      assert current + [] == current;
    } else if Classify(frames[0]) != NoControl {
      assert [] + DataFrames(frames[1..]) == DataFrames(frames[1..]);
      OneWindow(cfg, current, used, packets, frames[1..]);
    } else {
      var f, rest := frames[0], DataFrames(frames[1..]);
      var item, later := ArrivalOf(cfg, packets, f).item, Items(Arrivals(cfg, U32(packets + 1), frames[1..]));
      assert ([f] + rest)[1..] == rest;
      OneWindow(cfg, current + [item], used + |f|, U32(packets + 1), frames[1..]);
      Associative(current, [item], later);
    }
  }

  lemma AllInOneWindow(cfg: RxConfig, frames: seq<Frame>)
    requires TotalLength(DataFrames(frames)) < cfg.pbSize
    ensures WindowsOf(cfg, frames) == [Items(Arrivals(cfg, 0, frames))]
    ensures AllFitHeap(WindowsOf(cfg, frames)) <==> |DataFrames(frames)| <= HEAP_CAPACITY
  {
    var window := Items(Arrivals(cfg, 0, frames));
    OneWindow(cfg, [], 0, 0, frames);
    ArrivalPayloads(cfg, 0, frames);
    assert [] + window == window;
    assert |Payloads(window)| == |PayloadsOf(DataFrames(frames))|;
    assert window in [window];
  }

  lemma {:induction false} DataFramesAppend(a: seq<Frame>, b: seq<Frame>)
    ensures DataFrames(a + b) == DataFrames(a) + DataFrames(b)
  {
    if a == [] {
      assert a + b == b;
    } else {
      assert (a + b)[1..] == a[1..] + b;
      DataFramesAppend(a[1..], b);
    }
  }

  /** Reordering the frames reorders the data frames among them. */
  lemma {:induction false} DataFramesPermute(a: seq<Frame>, b: seq<Frame>)
    requires multiset(a) == multiset(b)
    ensures multiset(DataFrames(a)) == multiset(DataFrames(b))
    decreases |a|
  {
    if a == [] {
      assert |multiset(b)| == 0;
    } else {
      assert a[0] in multiset(b);
      var k :| 0 <= k < |b| && b[k] == a[0];
      WithoutMultiset(b, k);
      WithoutMultiset(a, 0);
      assert Without(a, 0) == a[1..];
      DataFramesPermute(a[1..], Without(b, k));
      DataFramesWithout(b, k);
      DataFramesWithout(a, 0);
    }
  }

  lemma DataFramesMiddle(pre: seq<Frame>, x: seq<Frame>, post: seq<Frame>)
    ensures multiset(DataFrames(pre + (x + post))) == multiset(DataFrames(pre + post)) + multiset(DataFrames(x))
  {
    DataFramesAppend(pre, post);
    DataFramesAppend(pre, x + post);
    DataFramesAppend(x, post);
    MiddleMultiset(DataFrames(pre), DataFrames(x), DataFrames(post));
  }

  lemma DataFramesWithout(b: seq<Frame>, k: nat)
    requires k < |b|
    ensures multiset(DataFrames(b)) == multiset(DataFrames(Without(b, k))) + multiset(DataFrames([b[k]]))
  {
    SplitAround(b, k);
    DataFramesMiddle(b[..k], [b[k]], b[k + 1..]);
  }

  lemma {:induction false} TotalLengthPermutes(a: seq<Frame>, b: seq<Frame>)
    requires multiset(a) == multiset(b)
    ensures TotalLength(a) == TotalLength(b)
    decreases |a|
  {
    if a == [] {
      assert |multiset(b)| == 0;
    } else {
      assert a[0] in multiset(b);
      var k :| 0 <= k < |b| && b[k] == a[0];
      WithoutMultiset(b, k);
      WithoutMultiset(a, 0);
      assert Without(a, 0) == a[1..];
      TotalLengthPermutes(a[1..], Without(b, k));
      TotalLengthWithout(b, k);
    }
  }

  lemma {:induction false} TotalLengthWithout(b: seq<Frame>, k: nat)
    requires k < |b|
    ensures TotalLength(b) == |b[k]| + TotalLength(Without(b, k))
    decreases k
  {
    if k == 0 {
      assert Without(b, 0) == b[1..];
    } else {
      TotalLengthWithout(b[1..], k - 1);
      assert Without(b, k)[1..] == Without(b[1..], k - 1);
    }
  }

  ghost predicate DistinctNumbers(frames: seq<Frame>) {
    Distinct(Map(NumberedItem, frames))
  }

  /** In ordered mode, when everything fits one window, the order of arrival does not matter. */
  lemma ArrivalOrderIsIrrelevant(cfg: RxConfig, a: seq<Frame>, b: seq<Frame>)
    requires cfg.ordered && multiset(a) == multiset(b)
    requires TotalLength(DataFrames(a)) < cfg.pbSize && |DataFrames(a)| <= HEAP_CAPACITY
    requires DistinctNumbers(DataFrames(a))
    ensures RunOutput(cfg, a) == RunOutput(cfg, b)
  {
    DataFramesPermute(a, b);
    var da, db := DataFrames(a), DataFrames(b);
    TotalLengthPermutes(da, db);
    assert |multiset(da)| == |da| && |multiset(db)| == |db|;
    OneWindowOutput(cfg, a);
    OneWindowOutput(cfg, b);
    SameItemsSameOrder(da, db);
  }

  lemma SameItemsSameOrder(a: seq<Frame>, b: seq<Frame>)
    requires multiset(a) == multiset(b) && DistinctNumbers(a)
    ensures HeapOrder(ByNumber, Map(NumberedItem, a)) == HeapOrder(ByNumber, Map(NumberedItem, b))
  {
    MapPermutation(NumberedItem, a, b);
    var wa, wb := Map(NumberedItem, a), Map(NumberedItem, b);
    HeapOrderIsSortedPermutation(ByNumber, wb);
    DistinctDrainOrder(wa, HeapOrder(ByNumber, wb));
  }

  lemma OneWindowOutput(cfg: RxConfig, frames: seq<Frame>)
    requires cfg.ordered && TotalLength(DataFrames(frames)) < cfg.pbSize
    ensures RunOutput(cfg, frames) == WindowBytes(cfg, Map(NumberedItem, DataFrames(frames)))
  {
    var w := Map(NumberedItem, DataFrames(frames));
    CaptureIsWindowedSort(cfg, frames);
    AllInOneWindow(cfg, frames);
    OrderedItems(cfg, 0, frames);
    assert Output(cfg, [w]) == WindowBytes(cfg, w) + [];
  }
}
