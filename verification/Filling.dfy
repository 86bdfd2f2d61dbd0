/** What a whole ordered capture fills with noise: the gaps inside its windows, not those between them. */
module Filling {
  import opened Machine
  import opened Sequences
  import opened Wire
  import opened ReceiverModel
  import opened Draining
  import opened Windows
  import opened Delivery
  import opened GapAccounting
  import opened LossAccounting
  import opened NoisePlacement

  // ---------- One gap ----------

  /** Behind an earlier block the bytes of a window have the noise for the gap in front. */
  lemma GapInFront(cfg: RxConfig, expected: int, b: seq<Item>)
    requires b != []
    ensures BlockBytes(cfg, expected, b) == NoiseBytes(cfg, expected, b[0]) + OrderBytes(cfg, b)
  {
    var tail := BlockBytes(cfg, Int32(b[0].number + 1), b[1..]);
    NoGapBytes(cfg, b[0].number, b);
    Associative(NoiseBytes(cfg, expected, b[0]), b[0].payload, tail);
  }

  lemma OrderSplits(cfg: RxConfig, a: seq<Item>, b: seq<Item>, noise: seq<byte>)
    requires a != [] && b != [] && noise == NoiseBytes(cfg, Int32(a[|a| - 1].number + 1), b[0])
    ensures OrderBytes(cfg, a + b) == OrderBytes(cfg, a) + (noise + OrderBytes(cfg, b))
  {
    GapInFront(cfg, Int32(a[|a| - 1].number + 1), b);
    BytesSplit(cfg, a[0].number, a + b, a, b, noise + OrderBytes(cfg, b));
  }

  /** There is noise in front of a block exactly if something is missing there. */
  lemma NoiseShows(cfg: RxConfig, last: int, item: Item)
    requires cfg.ordered && cfg.addNoise && item.payload != []
    requires IsFrameNumber(last) && IsFrameNumber(item.number) && last < item.number
    ensures NoiseBytes(cfg, Int32(last + 1), item) == [] <==> item.number == last + 1
  {
    var gap, block := item.number - last - 1, Fill(|item.payload|, cfg.noiseValue);
    assert Gap(cfg, last + 1, item.number) == gap;
    if gap > 0 {
      assert Fill(gap, block)[0] == block;
    }
  }

  lemma NoiseBetween(cfg: RxConfig, a: seq<Item>, b: seq<Item>, noise: seq<byte>)
    requires cfg.ordered && cfg.addNoise && a != [] && b != [] && b[0].payload != []
    requires IsFrameNumber(a[|a| - 1].number) && IsFrameNumber(b[0].number) && a[|a| - 1].number < b[0].number
    requires noise == NoiseBytes(cfg, Int32(a[|a| - 1].number + 1), b[0])
    ensures OrderBytes(cfg, a + b) == OrderBytes(cfg, a) + (noise + OrderBytes(cfg, b))
    ensures noise == [] <==> b[0].number == a[|a| - 1].number + 1
  {
    NoiseShows(cfg, a[|a| - 1].number, b[0]);
    OrderSplits(cfg, a, b, noise);
  }

  // ---------- Windows ----------

  lemma WindowInOrder(cfg: RxConfig, w: seq<Item>)
    requires Increasing(w) && |w| <= HEAP_CAPACITY
    ensures WindowBytes(cfg, w) == OrderBytes(cfg, w)
  {
    IncreasingDrainOrder(w);
  }

  lemma OutputCons(cfg: RxConfig, w: seq<Item>, rest: seq<seq<Item>>)
    ensures Output(cfg, [w] + rest) == WindowBytes(cfg, w) + Output(cfg, rest)
  {
    assert ([w] + rest)[1..] == rest;
  }

  /** `written` is what `whole` says, or shorter, and the former exactly if `all` holds. */
  ghost predicate ShortUnless(written: seq<byte>, whole: seq<byte>, all: bool) {
    && (all ==> written == whole)
    && (!all ==> |written| < |whole|)
  }

  lemma JoinShort(first: seq<byte>, noise: seq<byte>, written: seq<byte>, whole: seq<byte>, all: bool)
    requires ShortUnless(written, whole, all)
    ensures ShortUnless(first + written, first + (noise + whole), noise == [] && all)
  {
    if noise == [] {
      assert noise + whole == whole;
    }
  }

  /** What holds of all items holds of both parts of them. */
  lemma SplitsItems(a: seq<Item>, b: seq<Item>)
    requires a != [] && b != [] && Increasing(a + b) && FrameNumbers(a + b) && NoneHollow(a + b)
    ensures Increasing(a) && Increasing(b) && FrameNumbers(b) && NoneHollow(b) && b[0].payload != []
    ensures IsFrameNumber(a[|a| - 1].number) && IsFrameNumber(b[0].number) && a[|a| - 1].number < b[0].number
  {
    var all := a + b;
    assert forall i :: 0 <= i < |a| ==> a[i] == all[i];
    assert forall i :: 0 <= i < |b| ==> b[i] == all[|a| + i];
    HollowSplit(a, b);
    assert b[0] in b;
  }

  /** A window in front of others that write `written` of what they should. */
  lemma FillStep(cfg: RxConfig, w: seq<Item>, later: seq<Item>, written: seq<byte>, all: bool)
    requires cfg.ordered && cfg.addNoise && w != [] && later != [] && |w| <= HEAP_CAPACITY
    requires Increasing(w + later) && FrameNumbers(w + later) && NoneHollow(w + later)
    requires ShortUnless(written, OrderBytes(cfg, later), all)
    ensures ShortUnless(WindowBytes(cfg, w) + written, OrderBytes(cfg, w + later),
                        later[0].number == w[|w| - 1].number + 1 && all)
  {
    var noise := NoiseBytes(cfg, Int32(w[|w| - 1].number + 1), later[0]);
    SplitsItems(w, later);
    WindowInOrder(cfg, w);
    NoiseBetween(cfg, w, later, noise);
    JoinShort(OrderBytes(cfg, w), noise, written, OrderBytes(cfg, later), all);
  }

  lemma OneWindowFills(cfg: RxConfig, w: seq<Item>)
    requires Increasing(w) && |w| <= HEAP_CAPACITY
    ensures ShortUnless(Output(cfg, [w]), OrderBytes(cfg, w), true)
  {
    WindowInOrder(cfg, w);
    assert Output(cfg, [w]) == OrderBytes(cfg, w) + [];
  }

  /**
   Windows in increasing order write their blocks with all gaps between them filled exactly if every
   window begins one after the last number of the window before it; otherwise they write less.
   */
  lemma {:induction false} FillsExactly(cfg: RxConfig, windows: seq<seq<Item>>, items: seq<Item>, written: seq<byte>)
    requires cfg.ordered && cfg.addNoise && windows != [] && NoneEmpty(windows) && AllFitHeap(windows)
    requires items == Concat(windows) && Increasing(items) && FrameNumbers(items) && NoneHollow(items)
    requires written == Output(cfg, windows)
    ensures ShortUnless(written, OrderBytes(cfg, items), Joined(windows))
    decreases windows
  {
    var w, rest := windows[0], windows[1..];
    assert windows == [w] + rest && w in windows;
    if rest == [] {
      assert items == w + [] == w && windows == [w];
      OneWindowFills(cfg, w);
    } else {
      var later := Concat(rest);
      FirstOfConcat(rest);
      SplitsItems(w, later);
      JoinedStep(windows);
      FillsExactly(cfg, rest, later, Output(cfg, rest));
      OutputCons(cfg, w, rest);
      FillStep(cfg, w, later, Output(cfg, rest), Joined(rest));
    }
  }

  // ---------- Captures ----------

  /** A first window that holds nothing writes nothing. */
  lemma BegunWritesAll(cfg: RxConfig, windows: seq<seq<Item>>)
    ensures Output(cfg, Begun(windows)) == Output(cfg, windows)
  {
    if windows != [] && windows[0] == [] {
      IncreasingDrainOrder([]);
      assert WindowBytes(cfg, []) == [];
    }
  }

  /**
   A capture of increasing numbers fills all gaps exactly if every window begins one after the last
   number of the window before it. Otherwise its output is too short.
   */
  lemma CaptureFillsExactly(cfg: RxConfig, frames: seq<Frame>, items: seq<Item>)
    requires cfg.ordered && cfg.addNoise && AllFitHeap(WindowsOf(cfg, frames))
    requires items == Items(Arrivals(cfg, 0, frames)) && items != []
    requires Increasing(items) && FrameNumbers(items) && NoneHollow(items)
    ensures NoneEmpty(Begun(WindowsOf(cfg, frames)))
    ensures ShortUnless(RunOutput(cfg, frames), OrderBytes(cfg, items), Joined(Begun(WindowsOf(cfg, frames))))
  {
    BegunWindows(cfg, frames);
    BegunWritesAll(cfg, WindowsOf(cfg, frames));
    CaptureIsWindowedSort(cfg, frames);
    FillsExactly(cfg, Begun(WindowsOf(cfg, frames)), items, RunOutput(cfg, frames));
  }

  // ---------- Places in a capture ----------

  lemma {:induction false} UniformItems(blockSize: nat, expected: int, items: seq<Item>)
    requires blockSize > 0 && Uniform(blockSize, expected, items)
    requires items != [] ==> items[|items| - 1].payload != []
    ensures Increasing(items) && FrameNumbers(items) && NoneHollow(items)
    decreases items
  {
    if items != [] {
      var rest := items[1..];
      assert forall i :: 0 < i < |items| ==> items[i] == rest[i - 1];
      assert rest != [] ==> rest[|rest| - 1] == items[|items| - 1];
      UniformItems(blockSize, items[0].number + 1, rest);
      UniformIncreases(blockSize, items[0].number + 1, rest);
      assert items == [items[0]] + rest;
    }
  }

  /** There is no room for the last block in bytes that end before its end. */
  lemma NoPlaceForLast(bytes: seq<byte>, v: byte, blockSize: nat, items: seq<Item>, first: int, last: Item, at: nat)
    requires last in items && at == (last.number - first) * blockSize && |bytes| < at + |last.payload|
    ensures !Placed(bytes, v, blockSize, first, items, last.number)
  {
  }

  lemma AllPlaced(cfg: RxConfig, items: seq<Item>, blockSize: nat)
    requires cfg.ordered && cfg.addNoise && items != [] && Uniform(blockSize, items[0].number, items)
    ensures forall number :: items[0].number <= number <= items[|items| - 1].number ==>
              Placed(OrderBytes(cfg, items), cfg.noiseValue, blockSize, items[0].number, items, number)
  {
    forall number | items[0].number <= number <= items[|items| - 1].number
      ensures Placed(OrderBytes(cfg, items), cfg.noiseValue, blockSize, items[0].number, items, number)
    {
      OrderKeepsPositions(cfg, blockSize, items, number);
    }
  }

  lemma LastIsNotPlaced(cfg: RxConfig, out: seq<byte>, items: seq<Item>, blockSize: nat, first: int, last: Item)
    requires cfg.ordered && cfg.addNoise && items != [] && |out| < |OrderBytes(cfg, items)|
    requires first == items[0].number && last == items[|items| - 1] && Uniform(blockSize, first, items)
    ensures first <= last.number && !Placed(out, cfg.noiseValue, blockSize, first, items, last.number)
  {
    UniformNumbers(blockSize, first, items);
    UniformLength(cfg, blockSize, first, items, last.number - first);
    NoPlaceForLast(out, cfg.noiseValue, blockSize, items, first, last, (last.number - first) * blockSize);
  }

  /** In bytes that are as long as they should be, every number has its place, and in no others. */
  lemma PlacesExactly(cfg: RxConfig, out: seq<byte>, items: seq<Item>, blockSize: nat, all: bool)
    requires cfg.ordered && cfg.addNoise && items != [] && ShortUnless(out, OrderBytes(cfg, items), all)
    requires Uniform(blockSize, items[0].number, items)
    ensures (forall number :: items[0].number <= number <= items[|items| - 1].number ==>
               Placed(out, cfg.noiseValue, blockSize, items[0].number, items, number))
       <==> all
  {
    if all {
      AllPlaced(cfg, items, blockSize);
    } else {
      LastIsNotPlaced(cfg, out, items, blockSize, items[0].number, items[|items| - 1]);
    }
  }

  /**
   In a capture with noise of full blocks in order of arrival, the last one possibly shorter behind its
   predecessor, every number from the first to the last has its place exactly if every window begins one
   after the last number of the window before it.
   */
  lemma CaptureKeepsPlacesExactly(cfg: RxConfig, frames: seq<Frame>, items: seq<Item>, blockSize: nat)
    requires cfg.ordered && cfg.addNoise && AllFitHeap(WindowsOf(cfg, frames))
    requires items == Items(Arrivals(cfg, 0, frames)) && items != [] && items[|items| - 1].payload != []
    requires blockSize > 0 && Uniform(blockSize, items[0].number, items)
    ensures NoneEmpty(Begun(WindowsOf(cfg, frames)))
    ensures (forall number :: items[0].number <= number <= items[|items| - 1].number ==>
               Placed(RunOutput(cfg, frames), cfg.noiseValue, blockSize, items[0].number, items, number))
       <==> Joined(Begun(WindowsOf(cfg, frames)))
  {
    UniformItems(blockSize, items[0].number, items);
    CaptureFillsExactly(cfg, frames, items);
    PlacesExactly(cfg, RunOutput(cfg, frames), items, blockSize, Joined(Begun(WindowsOf(cfg, frames))));
  }

  lemma LengthInOrder(cfg: RxConfig, items: seq<Item>, blockSize: nat, length: nat)
    requires cfg.ordered && cfg.addNoise && items != []
    requires Increasing(items) && FrameNumbers(items) && blockSize > 0 && OfSize(blockSize, items)
    requires length == (items[|items| - 1].number + 1 - items[0].number) * blockSize
    ensures |OrderBytes(cfg, items)| == length && NoneHollow(items)
  {
    var first, last := items[0].number, items[|items| - 1].number;
    assert forall i :: 0 <= i < |items| ==> items[i] in items;
    IncreasingIsUniform(blockSize, first, items);
    UniformNumbers(blockSize, first, items);
    UniformLength(cfg, blockSize, first, items, last - first);
    JoinTimes(last - first, 0, last + 1 - first, blockSize);
  }

  /** For blocks of one size the length of the output tells. */
  lemma CaptureLengthIsExact(cfg: RxConfig, frames: seq<Frame>, items: seq<Item>, blockSize: nat, length: nat)
    requires cfg.ordered && cfg.addNoise && AllFitHeap(WindowsOf(cfg, frames))
    requires items == Items(Arrivals(cfg, 0, frames)) && items != []
    requires Increasing(items) && FrameNumbers(items) && blockSize > 0 && OfSize(blockSize, items)
    requires length == (items[|items| - 1].number + 1 - items[0].number) * blockSize
    ensures NoneEmpty(Begun(WindowsOf(cfg, frames)))
    ensures |RunOutput(cfg, frames)| == length <==> Joined(Begun(WindowsOf(cfg, frames)))
  {
    LengthInOrder(cfg, items, blockSize, length);
    CaptureFillsExactly(cfg, frames, items);
  }
}
