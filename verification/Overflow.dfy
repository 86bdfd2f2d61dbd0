/** Short frames that the heap has no room for, although the packet buffer has. */
module Overflow {
  import opened Machine
  import opened Sequences
  import opened Wire
  import opened ReceiverModel
  import opened Delivery
  import opened Channel

  /**
   Data that fits the packet buffer at once is delivered completely by an unordered capture exactly if
   it has no more frames than the heap has room for.
   */
  lemma OneBufferExactly(cfg: RxConfig, frames: seq<Frame>)
    requires !cfg.ordered && |DataFrames(frames)| <= 0x8000_0000 && NoneEmptyPayload(DataFrames(frames))
    requires TotalLength(DataFrames(frames)) < cfg.pbSize
    ensures RunOutput(cfg, frames) == Concat(PayloadsOf(DataFrames(frames))) <==> |DataFrames(frames)| <= HEAP_CAPACITY
  {
    AllInOneWindow(cfg, frames);
    UnorderedIsFifo(cfg, frames);
  }

  lemma {:induction false} LengthOfCopies(n: nat, f: Frame)
    ensures TotalLength(Fill(n, f)) == n * |f|
  {
    if n > 0 {
      assert Fill(n, f)[1..] == Fill(n - 1, f);
      LengthOfCopies(n - 1, f);
      assert n * |f| == |f| + (n - 1) * |f|;
    }
  }

  /** One byte per frame, one frame more than the heap has room for, and an admissible buffer that holds them all. */
  lemma ShortFramesAreLost(cfg: RxConfig, value: byte)
    requires !cfg.ordered && cfg.pbSize == 5 * 1024 * 1024
    ensures var frames := Fill(20_402, PlainFrame(0, [value]));
            DataFrames(frames) == frames && RunOutput(cfg, frames) != Concat(PayloadsOf(frames))
  {
    var f := PlainFrame(0, [value]);
    var frames := Fill(HEAP_CAPACITY + 1, f);
    assert Classify(f) == NoControl;
    DataFramesOfKind(frames, NoControl);
    LengthOfCopies(HEAP_CAPACITY + 1, f);
    OneBufferExactly(cfg, frames);
  }
}
