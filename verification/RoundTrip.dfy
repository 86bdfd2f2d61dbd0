/** One file through a channel without loss. */
module RoundTrip {
  import opened Machine
  import opened Sequences
  import opened Wire
  import opened ReceiverModel
  import opened Delivery
  import opened TransmitterModel
  import opened Transmission
  import opened Splitting
  import opened Dispatching
  import opened Channel
  import opened Reception

  // ---------- Everything arrives ----------

  /**
   If the data among `frames` is all of one file, they yield the file, even when noise is enabled, if it
   fits the heap, and, blocks not being empty, only then.
   */
  lemma LosslessReception(cfg: RxConfig, sent: seq<Frame>, blocks: seq<seq<byte>>, numbered: bool, frames: seq<Frame>)
    requires AreData(sent, blocks, 0, numbered) && |blocks| <= 0x8000_0000 && DataFrames(frames) == sent
    requires cfg.ordered ==> numbered
    ensures FitsHeap(cfg, sent) ==> RunOutput(cfg, frames) == Concat(blocks)
    ensures NoEmptyBlocks(blocks) && RunOutput(cfg, frames) == Concat(blocks) ==> FitsHeap(cfg, sent)
  {
    var all := Fill(|sent|, true);
    AllSurvive(all, sent);
    AllSurvive(all, blocks);
    LossyReception(cfg, sent, blocks, all, numbered, frames);
  }

  // ---------- Whole transmissions ----------

  /** The three parts of a transmission whose blocks are no control data. */
  function PartsOf(frames: seq<Frame>, copies: nat, n: nat): FileFrames
    requires copies + n <= |frames|
  {
    FileFrames(frames[..copies], frames[copies..copies + n], frames[copies + n..])
  }

  lemma PartsJoin(frames: seq<Frame>, copies: nat, n: nat)
    requires copies + n <= |frames|
    ensures PartsOf(frames, copies, n).Frames() == frames
  {
  }

  lemma TransmissionParts(frames: seq<Frame>, blocks: seq<seq<byte>>, copies: nat, numbered: bool)
    requires IsTransmission(frames, blocks, copies, numbered) && NoControlBlocks(blocks)
    ensures PartsOf(frames, copies, |blocks|).Valid()
    ensures DataFrames(frames) == frames[copies..copies + |blocks|]
  {
    var parts := PartsOf(frames, copies, |blocks|);
    ControlFramesAreRecognised(parts.preambles, PREAMBLE_BYTE);
    ControlFramesAreRecognised(parts.eots, EOT_BYTE);
    BlocksAreData(parts.data, blocks, 0, numbered);
    FileData(parts);
    PartsJoin(frames, copies, |blocks|);
  }

  /**
   The capture of one whole transmission, read and dispatched in pieces of any sizes, is the file if no
   window overflows the heap, and, blocks not being empty, only then.
   */
  lemma TransmissionIsReceived(cfg: RxConfig, frames: seq<Frame>, blocks: seq<seq<byte>>, copies: nat, numbered: bool,
                               events: seq<RxEvent>)
    requires IsTransmission(frames, blocks, copies, numbered) && NoControlBlocks(blocks) && |blocks| <= 0x8000_0000
    requires (cfg.ordered ==> numbered) && Undisturbed(events) && FramesOf(events) == frames
    ensures FitsHeap(cfg, frames[copies..copies + |blocks|]) ==> Directory(cfg, events) == [Concat(blocks)]
    ensures NoEmptyBlocks(blocks) && Directory(cfg, events) == [Concat(blocks)]
        ==> FitsHeap(cfg, frames[copies..copies + |blocks|])
  {
    TransmissionParts(frames, blocks, copies, numbered);
    PartsJoin(frames, copies, |blocks|);
    FileIsOneCapture(PartsOf(frames, copies, |blocks|));
    UnsplitCapture(cfg, events);
    LosslessReception(cfg, frames[copies..copies + |blocks|], blocks, numbered, frames);
  }

  /** A whole file in long blocks fits the heap of a receiver with an admissible buffer. */
  lemma SentFitsHeap(cfg: RxConfig, sent: seq<Frame>, blocks: seq<seq<byte>>, numbered: bool)
    requires AreData(sent, blocks, 0, numbered) && NoControlBlocks(blocks)
    requires (LongBlocks(blocks) && cfg.pbSize <= PACKET_BUFFER_MAX) || |blocks| <= HEAP_CAPACITY
    ensures FitsHeap(cfg, sent)
  {
    AllSurvive(Fill(|sent|, true), sent);
    SurvivorsFitHeap(cfg, sent, blocks, Fill(|sent|, true), numbered);
  }

  /** Only the last block of a file can be shorter than the block size. */
  lemma ChunksAreLong(blockSize: nat, file: seq<byte>)
    requires blockSize >= BLOCK_SIZE_MIN
    ensures LongBlocks(Chunks(blockSize, file)) && Concat(Chunks(blockSize, file)) == file
    ensures var blocks := Chunks(blockSize, file);
            NoControlBlocks(blocks) <==> blocks == [] || !IsControlData(blocks[|blocks| - 1])
  {
    ChunksAreFull(blockSize, file);
  }

  /**
   Round trip: a file read in full blocks, sent once and received in order without loss comes out
   unchanged, for any admissible packet buffer, in both modes, with or without noise, whatever the
   number of frames in a dispatch.
   */
  lemma SingleFileRoundTrip(cfg: RxConfig, frames: seq<Frame>, blockSize: nat, file: seq<byte>, copies: nat,
                            numbered: bool, events: seq<RxEvent>)
    requires blockSize >= BLOCK_SIZE_MIN && |Chunks(blockSize, file)| <= 0x8000_0000
    requires IsTransmission(frames, Chunks(blockSize, file), copies, numbered)
    requires NoControlBlocks(Chunks(blockSize, file))
    requires cfg.pbSize <= PACKET_BUFFER_MAX && (cfg.ordered ==> numbered)
    requires Undisturbed(events) && FramesOf(events) == frames
    ensures Directory(cfg, events) == [file]
  {
    var blocks := Chunks(blockSize, file);
    ChunksAreLong(blockSize, file);
    SentFitsHeap(cfg, frames[copies..copies + |blocks|], blocks, numbered);
    TransmissionIsReceived(cfg, frames, blocks, copies, numbered, events);
  }

  // ---------- A last block that looks like control data ----------

  /** A last data frame that is misread ends the capture at most behind all data. */
  lemma MisreadFrames(p: seq<Frame>, data: seq<Frame>, last: Frame, e: seq<Frame>)
    requires AllOfKind(p, Preamble) && AllOfKind(data, NoControl) && AllOfKind(e, Eot)
    requires Classify(last) != NoControl
    ensures var air := (p + data) + ([last] + e);
            && DataFrames(air) == data
            && (EndsIn(0, air) ==> DataFrames(AfterEnd(0, air)) == [])
  {
    var f, n := FileFrames(p, data, []), CountedAll(0, p + data);
    assert f.Frames() == p + data;
    FileIsOneCapture(f);
    FileData(f);
    DataFramesOfKind(e, Eot);
    assert ([last] + e)[1..] == e;
    DataFramesAppend(p + data, [last] + e);
    if EndsIn(0, (p + data) + ([last] + e)) {
      AfterEndAppend(0, p + data, [last] + e);
      QuietFrames(n, e, Eot);
    }
  }

  /** The last block is taken for control data, and the output ends before it, whatever the dispatches. */
  lemma LastBlockIsLost(cfg: RxConfig, frames: seq<Frame>, blocks: seq<seq<byte>>, copies: nat, numbered: bool,
                        events: seq<RxEvent>)
    requires IsTransmission(frames, blocks, copies, numbered) && |blocks| <= 0x8000_0000 && blocks != []
    requires NoControlBlocks(blocks[..|blocks| - 1]) && IsControlData(blocks[|blocks| - 1])
    requires FitsHeap(cfg, frames[copies..copies + |blocks|][..|blocks| - 1]) && (cfg.ordered ==> numbered)
    requires Undisturbed(events) && FramesOf(events) == frames
    ensures Directory(cfg, events) != [] && Directory(cfg, events)[0] == Concat(blocks[..|blocks| - 1])
  {
    var n := |blocks| - 1;
    var parts := PartsOf(frames, copies, n + 1);
    var p, data, last, e := parts.preambles, parts.data[..n], parts.data[n], parts.eots;
    ControlFramesAreRecognised(p, PREAMBLE_BYTE);
    ControlFramesAreRecognised(e, EOT_BYTE);
    DataInit(parts.data, blocks, numbered);
    BlocksAreData(data, blocks[..n], 0, numbered);
    SplitBeforeLast(frames, copies, n);
    MisreadFrames(p, data, last, e);
    FirstOutput(cfg, data, blocks[..n], numbered, events);
  }

  lemma SplitBeforeLast(frames: seq<Frame>, copies: nat, n: nat)
    requires copies + n < |frames|
    ensures var parts := PartsOf(frames, copies, n + 1);
            frames == (parts.preambles + parts.data[..n]) + ([parts.data[n]] + parts.eots)
  {
  }

  lemma FirstOutput(cfg: RxConfig, data: seq<Frame>, blocks: seq<seq<byte>>, numbered: bool, events: seq<RxEvent>)
    requires Undisturbed(events) && DataFrames(FramesOf(events)) == data
    requires EndsIn(0, FramesOf(events)) ==> DataFrames(AfterEnd(0, FramesOf(events))) == []
    requires AreData(data, blocks, 0, numbered) && |blocks| <= 0x8000_0000
    requires FitsHeap(cfg, data) && (cfg.ordered ==> numbered)
    ensures Directory(cfg, events) != [] && Directory(cfg, events)[0] == Concat(blocks)
  {
    DirectorySplitsAtDispatches(cfg, events);
    FirstSegmentHoldsAll([], 0, events);
    assert DataFrames([]) + data == data;
    LosslessReception(cfg, data, blocks, numbered, DispatchSegments([], 0, events)[0]);
  }

  lemma DataInit(frames: seq<Frame>, blocks: seq<seq<byte>>, numbered: bool)
    requires AreData(frames, blocks, 0, numbered) && blocks != []
    ensures AreData(frames[..|blocks| - 1], blocks[..|blocks| - 1], 0, numbered)
    ensures Classify(frames[|blocks| - 1]) == NoControl <==> !IsControlData(blocks[|blocks| - 1])
  {
    var init, initBlocks := frames[..|blocks| - 1], blocks[..|blocks| - 1];
    forall i | 0 <= i < |init|
      ensures Carries(init[i], initBlocks[i]) && (numbered ==> FrameNumber(init[i]) == U32(0 + i))
    {
      assert Carries(frames[i], blocks[i]);
      assert numbered ==> FrameNumber(frames[i]) == U32(0 + i);
    }
    assert Carries(frames[|blocks| - 1], blocks[|blocks| - 1]);
    MeaningExactly(blocks[|blocks| - 1]);
  }

  lemma LastBlockCounts(blocks: seq<seq<byte>>)
    requires blocks != []
    ensures |Concat(blocks)| == |Concat(blocks[..|blocks| - 1])| + |blocks[|blocks| - 1]|
  {
    var init, last := blocks[..|blocks| - 1], blocks[|blocks| - 1];
    assert blocks == init + [last];
    ConcatAppend(init, [last]);
    assert Concat([last]) == last + [];
  }

  lemma InitFitsHeap(cfg: RxConfig, sent: seq<Frame>, blocks: seq<seq<byte>>, numbered: bool)
    requires AreData(sent, blocks, 0, numbered) && blocks != [] && NoControlBlocks(blocks[..|blocks| - 1])
    requires LongBlocks(blocks) && cfg.pbSize <= PACKET_BUFFER_MAX
    ensures FitsHeap(cfg, sent[..|blocks| - 1])
  {
    DataInit(sent, blocks, numbered);
    SentFitsHeap(cfg, sent[..|blocks| - 1], blocks[..|blocks| - 1], numbered);
  }

  /** Without its last block the output is not the file. */
  lemma MisreadFileFails(cfg: RxConfig, frames: seq<Frame>, blocks: seq<seq<byte>>, copies: nat, numbered: bool,
                         events: seq<RxEvent>)
    requires IsTransmission(frames, blocks, copies, numbered) && |blocks| <= 0x8000_0000 && blocks != []
    requires NoControlBlocks(blocks[..|blocks| - 1]) && IsControlData(blocks[|blocks| - 1])
    requires LongBlocks(blocks) && cfg.pbSize <= PACKET_BUFFER_MAX && (cfg.ordered ==> numbered)
    requires Undisturbed(events) && FramesOf(events) == frames
    ensures Directory(cfg, events) != [Concat(blocks)]
  {
    InitFitsHeap(cfg, frames[copies..copies + |blocks|], blocks, numbered);
    LastBlockIsLost(cfg, frames, blocks, copies, numbered, events);
    LastBlockCounts(blocks);
  }

  /**
   The round trip succeeds exactly if the last block is not 256 bytes of one control value; a block
   of any other length or content is never mistaken.
   */
  lemma RoundTripExactly(cfg: RxConfig, frames: seq<Frame>, blockSize: nat, file: seq<byte>, copies: nat,
                         numbered: bool, events: seq<RxEvent>)
    requires blockSize >= BLOCK_SIZE_MIN && |Chunks(blockSize, file)| <= 0x8000_0000 && file != []
    requires IsTransmission(frames, Chunks(blockSize, file), copies, numbered)
    requires cfg.pbSize <= PACKET_BUFFER_MAX && (cfg.ordered ==> numbered)
    requires Undisturbed(events) && FramesOf(events) == frames
    ensures Directory(cfg, events) == [file]
       <==> !IsControlData(Chunks(blockSize, file)[|Chunks(blockSize, file)| - 1])
  {
    var blocks := Chunks(blockSize, file);
    ChunksAreLong(blockSize, file);
    if !IsControlData(blocks[|blocks| - 1]) {
      SingleFileRoundTrip(cfg, frames, blockSize, file, copies, numbered, events);
    } else {
      MisreadFileFails(cfg, frames, blocks, copies, numbered, events);
    }
  }
}
