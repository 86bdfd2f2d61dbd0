/** What a receiver makes of data frames that arrive in the order in which they were sent. */
module Reception {
  import opened Machine
  import opened Sequences
  import opened Wire
  import opened ReceiverModel
  import opened Draining
  import opened Windows
  import opened Delivery
  import opened TransmitterModel
  import opened Channel

  // ---------- Control frames are recognised, long blocks are not mistaken ----------

  /** A frame that carries `payload` is classified by it, whatever its headers and checksum are. */
  lemma ControlFramesAreRecognised(frames: seq<Frame>, value: byte)
    requires AreControl(frames, value)
    ensures value == PREAMBLE_BYTE ==> AllOfKind(frames, Preamble)
    ensures value == EOT_BYTE ==> AllOfKind(frames, Eot)
  {
    var data := Fill(CONTROL_DATA_LEN, value);
    assert data[0] == value && AllBytes(data, value);
    assert !AllBytes(data, EOT_BYTE) || value == EOT_BYTE;
  }

  /** Only a block of 256 bytes 0xff or 256 bytes 0xaa passes for a control frame. */
  lemma BlocksAreData(frames: seq<Frame>, blocks: seq<seq<byte>>, first: nat, numbered: bool)
    requires AreData(frames, blocks, first, numbered)
    ensures AllOfKind(frames, NoControl) <==> NoControlBlocks(blocks)
  {
    forall i | 0 <= i < |frames| ensures Classify(frames[i]) == NoControl <==> !IsControlData(blocks[i]) {
      assert Carries(frames[i], blocks[i]);
      MeaningExactly(blocks[i]);
    }
  }

  // ---------- Sizes ----------

  function ShortData(frames: seq<Frame>): nat {
    if frames == [] then 0 else Short(|frames[0]|) + ShortData(frames[1..])
  }

  lemma {:induction false} OneShortInAll(cfg: RxConfig, packets: uint32, used: nat, short: nat, frames: seq<Frame>)
    requires short + ShortData(DataFrames(frames)) <= 1
    ensures OneShortPerWindow(cfg.pbSize, used, short, Arrivals(cfg, packets, frames))
    decreases frames
  {
    if frames != [] {
      var f, rest := frames[0], DataFrames(frames[1..]);
      if Classify(f) != NoControl {
        assert [] + rest == rest;
        OneShortInAll(cfg, packets, used, short, frames[1..]);
      } else {
        assert ([f] + rest)[1..] == rest;
        if used + |f| >= cfg.pbSize {
          OneShortInAll(cfg, U32(packets + 1), |f|, Short(|f|), frames[1..]);
        } else {
          OneShortInAll(cfg, U32(packets + 1), used + |f|, short + Short(|f|), frames[1..]);
        }
      }
    }
  }

  /** Of the frames of one file only the last can be short, so of those that arrive only one can. */
  lemma {:induction false} OneShortSurvivor(kept: seq<bool>, frames: seq<Frame>)
    requires |kept| == |frames|
    requires forall i :: 0 <= i < |frames| - 1 ==> |frames[i]| >= BLOCK_SIZE_MIN
    ensures ShortData(Surviving(kept, frames)) <= 1
  {
    if frames != [] {
      var rest := Surviving(kept[1..], frames[1..]);
      OneShortSurvivor(kept[1..], frames[1..]);
      assert ([frames[0]] + rest)[1..] == rest;
      assert [] + rest == rest;
      assert |frames| == 1 ==> rest == [];
    }
  }

  // ---------- Numbers ----------

  /** Frame numbers increase from `lo` on and stay positive as int32_t. */
  ghost predicate Ascending(frames: seq<Frame>, lo: int)
    decreases frames
  {
    frames != [] ==>
      && lo <= FrameNumber(frames[0]) < 0x8000_0000
      && Ascending(frames[1..], FrameNumber(frames[0]) + 1)
  }

  lemma {:induction false} AscendingIncreases(frames: seq<Frame>, lo: int)
    requires Ascending(frames, lo)
    ensures Increasing(Map(NumberedItem, frames))
    ensures forall i :: 0 <= i < |frames| ==> lo <= Map(NumberedItem, frames)[i].number
    decreases frames
  {
    if frames != [] {
      var rest := frames[1..];
      AscendingIncreases(rest, FrameNumber(frames[0]) + 1);
      assert Map(NumberedItem, frames)[1..] == Map(NumberedItem, rest);
      assert forall i :: 0 < i < |frames| ==> Map(NumberedItem, frames)[i] == Map(NumberedItem, rest)[i - 1];
    }
  }

  lemma {:induction false} SurvivorsAscend(kept: seq<bool>, frames: seq<Frame>, blocks: seq<seq<byte>>, first: nat)
    requires |kept| == |frames| && AreData(frames, blocks, first, true) && first + |frames| <= 0x8000_0000
    ensures Ascending(Surviving(kept, frames), first)
    decreases frames
  {
    if frames != [] {
      var rest := Surviving(kept[1..], frames[1..]);
      DataTail(frames, blocks, first, true);
      SurvivorsAscend(kept[1..], frames[1..], blocks[1..], first + 1);
      assert FrameNumber(frames[0]) == U32(first + 0) == first;
      assert ([frames[0]] + rest)[1..] == rest;
      assert [] + rest == rest;
    }
  }

  lemma DataTail(frames: seq<Frame>, blocks: seq<seq<byte>>, first: nat, numbered: bool)
    requires AreData(frames, blocks, first, numbered) && frames != []
    ensures AreData(frames[1..], blocks[1..], first + 1, numbered) && Payload(frames[0]) == blocks[0]
  {
    assert Carries(frames[0], blocks[0]);
    forall i | 0 <= i < |frames| - 1
      ensures Carries(frames[1..][i], blocks[1..][i])
      ensures numbered ==> FrameNumber(frames[1..][i]) == U32(first + 1 + i)
    {
      assert Carries(frames[i + 1], blocks[i + 1]);
      assert numbered ==> FrameNumber(frames[i + 1]) == U32(first + (i + 1));
    }
  }

  lemma {:induction false} SurvivingPayloads(kept: seq<bool>, frames: seq<Frame>, blocks: seq<seq<byte>>, first: nat,
                                             numbered: bool)
    requires |kept| == |frames| && AreData(frames, blocks, first, numbered)
    ensures PayloadsOf(Surviving(kept, frames)) == Surviving(kept, blocks)
    decreases frames
  {
    if frames != [] {
      var rest := Surviving(kept[1..], frames[1..]);
      DataTail(frames, blocks, first, numbered);
      SurvivingPayloads(kept[1..], frames[1..], blocks[1..], first + 1, numbered);
      assert ([frames[0]] + rest)[1..] == rest;
      assert [] + rest == rest;
    }
  }

  // ---------- In-order arrival ----------

  /** No window of these data frames holds more of them than the heap. */
  ghost predicate FitsHeap(cfg: RxConfig, data: seq<Frame>) {
    AllFitHeap(WindowsOf(cfg, data))
  }

  /** With an admissible buffer one short frame in every window is not too many. */
  lemma ShortFramesFit(cfg: RxConfig, data: seq<Frame>)
    requires cfg.pbSize <= PACKET_BUFFER_MAX && OneShortPerWindow(cfg.pbSize, 0, 0, Arrivals(cfg, 0, data))
    ensures FitsHeap(cfg, data)
  {
    HeapNeverOverflows(cfg.pbSize, [], 0, Arrivals(cfg, 0, data), 0);
  }

  /** The data frames come in the order of their numbers, without gaps where noise would fill them. */
  ghost predicate InOrder(cfg: RxConfig, data: seq<Frame>) {
    && |data| <= 0x8000_0000
    && (cfg.ordered ==> Ascending(data, 0) && Gapless(cfg, Map(NumberedItem, data)))
  }

  /**
   Data in order is written as it came, whatever the buffer size, in both modes, if no window overflows
   the heap, and, blocks not being empty, only then.
   */
  lemma InOrderReception(cfg: RxConfig, frames: seq<Frame>, data: seq<Frame>)
    requires data == DataFrames(frames) && InOrder(cfg, data)
    ensures FitsHeap(cfg, data) ==> RunOutput(cfg, frames) == Concat(PayloadsOf(data))
    ensures NoneEmptyPayload(data) && RunOutput(cfg, frames) == Concat(PayloadsOf(data)) ==> FitsHeap(cfg, data)
  {
    OnlyDataIsWritten(cfg, frames);
    if cfg.ordered {
      OrderedItems(cfg, 0, frames);
      AscendingIncreases(data, 0);
      DeliveryExactly(cfg, frames, Items(Arrivals(cfg, 0, frames)));
    } else {
      UnorderedIsFifo(cfg, frames);
    }
  }

  /** No block of the file is 256 times a control value. */
  ghost predicate NoControlBlocks(blocks: seq<seq<byte>>) {
    forall i :: 0 <= i < |blocks| ==> !IsControlData(blocks[i])
  }

  /** All blocks but the last have at least the least block size. */
  ghost predicate LongBlocks(blocks: seq<seq<byte>>) {
    forall i :: 0 <= i < |blocks| - 1 ==> |blocks[i]| >= BLOCK_SIZE_MIN
  }

  /** Order mode needs numbers, and noise would show in the output wherever a block is missing. */
  predicate Suits(cfg: RxConfig, numbered: bool, kept: seq<bool>) {
    cfg.ordered ==> numbered && (cfg.addNoise ==> false !in kept)
  }

  /** Full reads into an admissible buffer, or a small number of blocks of any sizes, always fit the heap. */
  lemma SurvivorsFitHeap(cfg: RxConfig, sent: seq<Frame>, blocks: seq<seq<byte>>, kept: seq<bool>, numbered: bool)
    requires AreData(sent, blocks, 0, numbered) && NoControlBlocks(blocks) && |kept| == |sent|
    requires (LongBlocks(blocks) && cfg.pbSize <= PACKET_BUFFER_MAX) || |blocks| <= HEAP_CAPACITY
    ensures FitsHeap(cfg, Surviving(kept, sent))
  {
    var data := Surviving(kept, sent);
    BlocksAreData(sent, blocks, 0, numbered);
    SurvivorsKeepTheirKind(kept, sent, NoControl);
    DataFramesOfKind(data, NoControl);
    if |blocks| <= HEAP_CAPACITY {
      ArrivalsOfData(cfg, 0, data);
      FewArrivalsFit(cfg.pbSize, [], 0, Arrivals(cfg, 0, data));
    } else {
      SentIsLong(sent, blocks, numbered);
      OneShortSurvivor(kept, sent);
      OneShortInAll(cfg, 0, 0, 0, data);
      ShortFramesFit(cfg, data);
    }
  }

  lemma NumberOfSent(sent: seq<Frame>, blocks: seq<seq<byte>>, i: nat)
    requires AreData(sent, blocks, 0, true) && i < |sent| <= 0x8000_0000
    ensures Map(NumberedItem, sent)[i].number == i
  {
    assert FrameNumber(sent[i]) == U32(0 + i);
  }

  lemma NumbersWithoutGaps(cfg: RxConfig, sent: seq<Frame>, blocks: seq<seq<byte>>)
    requires AreData(sent, blocks, 0, true) && |sent| <= 0x8000_0000
    ensures Gapless(cfg, Map(NumberedItem, sent))
  {
    var items := Map(NumberedItem, sent);
    forall i, j | 0 <= i < j < |items| && j == i + 1 ensures items[j].number == Int32(items[i].number + 1) {
      NumberOfSent(sent, blocks, i);
      NumberOfSent(sent, blocks, j);
    }
  }

  lemma SentIsLong(sent: seq<Frame>, blocks: seq<seq<byte>>, numbered: bool)
    requires AreData(sent, blocks, 0, numbered) && LongBlocks(blocks)
    ensures forall i :: 0 <= i < |sent| - 1 ==> |sent[i]| >= BLOCK_SIZE_MIN
  {
    forall i | 0 <= i < |sent| - 1 ensures |sent[i]| >= BLOCK_SIZE_MIN {
      assert Carries(sent[i], blocks[i]);
    }
  }

  /**
   If the data among `frames` is what is left of one file, they yield what is left of its blocks, if it
   fits the heap, and, blocks not being empty, only then.
   */
  lemma LossyReception(cfg: RxConfig, sent: seq<Frame>, blocks: seq<seq<byte>>, kept: seq<bool>, numbered: bool,
                       frames: seq<Frame>)
    requires AreData(sent, blocks, 0, numbered) && |blocks| <= 0x8000_0000 && |kept| == |sent|
    requires Suits(cfg, numbered, kept) && DataFrames(frames) == Surviving(kept, sent)
    ensures FitsHeap(cfg, Surviving(kept, sent)) ==> RunOutput(cfg, frames) == Concat(Surviving(kept, blocks))
    ensures NoEmptyBlocks(blocks) && RunOutput(cfg, frames) == Concat(Surviving(kept, blocks))
        ==> FitsHeap(cfg, Surviving(kept, sent))
  {
    var data := Surviving(kept, sent);
    if cfg.ordered {
      SurvivorsAscend(kept, sent, blocks, 0);
      if cfg.addNoise {
        AllSurvive(kept, sent);
        NumbersWithoutGaps(cfg, sent, blocks);
      }
    }
    InOrderReception(cfg, frames, data);
    SurvivingPayloads(kept, sent, blocks, 0, numbered);
    if NoEmptyBlocks(blocks) {
      SurvivorsAreNotEmpty(kept, sent, blocks, 0, numbered);
    }
  }

  ghost predicate NoEmptyBlocks(blocks: seq<seq<byte>>) {
    forall i :: 0 <= i < |blocks| ==> blocks[i] != []
  }

  lemma {:induction false} SurvivorsAreNotEmpty(kept: seq<bool>, sent: seq<Frame>, blocks: seq<seq<byte>>, first: nat,
                                                numbered: bool)
    requires |kept| == |sent| && AreData(sent, blocks, first, numbered) && NoEmptyBlocks(blocks)
    ensures NoneEmptyPayload(Surviving(kept, sent))
    decreases sent
  {
    if sent != [] {
      DataTail(sent, blocks, first, numbered);
      SurvivorsAreNotEmpty(kept[1..], sent[1..], blocks[1..], first + 1, numbered);
    }
  }

  /** Unordered captures with different packet buffers write the same bytes. */
  lemma BufferSizeIsIrrelevant(a: RxConfig, b: RxConfig, frames: seq<Frame>)
    requires !a.ordered && !b.ordered && |DataFrames(frames)| <= 0x8000_0000
    requires FitsHeap(a, DataFrames(frames)) && FitsHeap(b, DataFrames(frames))
    ensures RunOutput(a, frames) == RunOutput(b, frames)
  {
    InOrderReception(a, frames, DataFrames(frames));
    InOrderReception(b, frames, DataFrames(frames));
  }
}
