/** From the transmitter through a channel to the receiver: what arrives of the files that were sent. */
module EndToEnd {
  import opened Machine
  import opened Sequences
  import opened Wire
  import opened ReceiverModel
  import opened Draining
  import opened Delivery
  import opened TransmitterModel
  import opened Splitting
  import opened Dispatching
  import opened Channel
  import opened Reception
  import opened Separation

  // ---------- One file over a lossy channel ----------

  /** One transmission, the blocks it carries, and which of its frames come through. */
  datatype Passage = Passage(frames: seq<Frame>, blocks: seq<seq<byte>>, kept: seq<bool>)
  {
    ghost predicate Valid(copies: nat, numbered: bool) {
      && IsTransmission(frames, blocks, copies, numbered) && |kept| == |frames|
      && |blocks| <= 0x8000_0000 && NoControlBlocks(blocks)
    }

    /** Which blocks come through. */
    function KeptData(copies: nat): seq<bool>
      requires copies + |blocks| <= |kept|
    {
      kept[copies..copies + |blocks|]
    }

    function SentData(copies: nat): seq<Frame>
      requires copies + |blocks| <= |frames|
    {
      frames[copies..copies + |blocks|]
    }

    function Arriving(): seq<Frame>
      requires |kept| == |frames|
    {
      Surviving(kept, frames)
    }

    function Parts(copies: nat): FileFrames
      requires |kept| == |frames| && copies + |blocks| <= |frames|
    {
      FileFrames(Surviving(kept[..copies], frames[..copies]),
                 Surviving(KeptData(copies), SentData(copies)),
                 Surviving(kept[copies + |blocks|..], frames[copies + |blocks|..]))
    }

    /** No window of what comes through overflows the heap. */
    ghost predicate Fits(cfg: RxConfig, copies: nat)
      requires |kept| == |frames| && copies + |blocks| <= |frames|
    {
      FitsHeap(cfg, Surviving(KeptData(copies), SentData(copies)))
    }

    /** The blocks that come through, one after the other. */
    function Delivered(copies: nat): seq<byte>
      requires copies + |blocks| <= |kept|
    {
      Concat(Surviving(KeptData(copies), blocks))
    }
  }

  lemma PartsArrive(p: Passage, copies: nat)
    requires |p.kept| == |p.frames| && copies + |p.blocks| <= |p.frames|
    ensures p.Parts(copies).Frames() == p.Arriving()
  {
    var k, f, m := p.kept, p.frames, copies + |p.blocks|;
    assert k[..m] == k[..copies] + p.KeptData(copies) && f[..m] == f[..copies] + p.SentData(copies);
    assert k == k[..m] + k[m..] && f == f[..m] + f[m..];
    SurvivingAppend(k[..copies], f[..copies], p.KeptData(copies), p.SentData(copies));
    SurvivingAppend(k[..m], f[..m], k[m..], f[m..]);
  }

  lemma PartsAreValid(p: Passage, copies: nat, numbered: bool)
    requires p.Valid(copies, numbered)
    ensures p.Parts(copies).Valid()
  {
    var f, m := p.frames, copies + |p.blocks|;
    ControlFramesAreRecognised(f[..copies], PREAMBLE_BYTE);
    ControlFramesAreRecognised(f[m..], EOT_BYTE);
    BlocksAreData(p.SentData(copies), p.blocks, 0, numbered);
    SurvivorsKeepTheirKind(p.kept[..copies], f[..copies], Preamble);
    SurvivorsKeepTheirKind(p.KeptData(copies), p.SentData(copies), NoControl);
    SurvivorsKeepTheirKind(p.kept[m..], f[m..], Eot);
  }

  /** Long blocks and an admissible buffer, or few blocks of any length, never crowd the heap. */
  lemma BlocksFit(cfg: RxConfig, p: Passage, copies: nat, numbered: bool)
    requires p.Valid(copies, numbered)
    requires (LongBlocks(p.blocks) && cfg.pbSize <= PACKET_BUFFER_MAX) || |p.blocks| <= HEAP_CAPACITY
    ensures p.Fits(cfg, copies)
  {
    SurvivorsFitHeap(cfg, p.SentData(copies), p.blocks, p.KeptData(copies), numbered);
  }

  /** Whatever else is among the frames, if their data is what is left of one file, they yield what is left of it. */
  lemma FileReception(cfg: RxConfig, p: Passage, copies: nat, numbered: bool, frames: seq<Frame>)
    requires p.Valid(copies, numbered) && Suits(cfg, numbered, p.KeptData(copies))
    requires DataFrames(frames) == p.Parts(copies).data
    ensures p.Fits(cfg, copies) ==> RunOutput(cfg, frames) == p.Delivered(copies)
    ensures NoEmptyBlocks(p.blocks) && RunOutput(cfg, frames) == p.Delivered(copies) ==> p.Fits(cfg, copies)
  {
    LossyReception(cfg, p.SentData(copies), p.blocks, p.KeptData(copies), numbered, frames);
  }

  // ---------- Several files ----------

  function ArrivingAll(ps: seq<Passage>): seq<Frame>
    requires forall i :: 0 <= i < |ps| ==> |ps[i].kept| == |ps[i].frames|
  {
    if ps == [] then [] else ps[0].Arriving() + ArrivingAll(ps[1..])
  }

  ghost predicate AllPass(ps: seq<Passage>, copies: nat, numbered: bool) {
    forall i :: 0 <= i < |ps| ==> ps[i].Valid(copies, numbered)
  }

  function AllParts(ps: seq<Passage>, copies: nat): (r: seq<FileFrames>)
    requires forall i :: 0 <= i < |ps| ==> |ps[i].kept| == |ps[i].frames| && copies + |ps[i].blocks| <= |ps[i].frames|
    ensures |r| == |ps| && forall k :: 0 <= k < |r| ==> r[k] == ps[k].Parts(copies)
  {
    if ps == [] then [] else [ps[0].Parts(copies)] + AllParts(ps[1..], copies)
  }

  lemma {:induction false} AllPartsArrive(ps: seq<Passage>, copies: nat, numbered: bool)
    requires AllPass(ps, copies, numbered)
    ensures OnAir(AllParts(ps, copies)) == ArrivingAll(ps) && AllValid(AllParts(ps, copies))
  {
    if ps != [] {
      assert ps[0].Valid(copies, numbered);
      forall i | 0 <= i < |ps| - 1 ensures ps[1..][i].Valid(copies, numbered) {
        assert ps[i + 1].Valid(copies, numbered);
      }
      AllPartsArrive(ps[1..], copies, numbered);
      PartsArrive(ps[0], copies);
      PartsAreValid(ps[0], copies, numbered);
      var rest := AllParts(ps[1..], copies);
      assert ([ps[0].Parts(copies)] + rest)[1..] == rest;
    }
  }

  /** Every file but the first keeps a preamble, and every file but the last keeps data. */
  ghost predicate EachShows(ps: seq<Passage>, copies: nat, numbered: bool)
    requires AllPass(ps, copies, numbered)
  {
    && (forall i :: 0 < i < |ps| ==> true in ps[i].kept[..copies])
    && (forall i :: 0 <= i < |ps| - 1 ==> true in ps[i].KeptData(copies))
  }

  lemma ShowingFilesAreSeparated(ps: seq<Passage>, copies: nat, numbered: bool)
    requires AllPass(ps, copies, numbered) && EachShows(ps, copies, numbered)
    ensures Separated(AllParts(ps, copies)) && Countable(0, AllParts(ps, copies))
  {
    var files := AllParts(ps, copies);
    forall i | 0 <= i < |files| ensures |files[i].data| <= 0x8000_0000 {
      assert ps[i].Valid(copies, numbered);
    }
    forall i | 0 < i < |files| ensures files[i].preambles != [] {
      assert ps[i].Valid(copies, numbered);
    }
    forall i | 0 <= i < |files| - 1 ensures files[i].data != [] {
      assert ps[i].Valid(copies, numbered);
    }
    SeparatedFilesAreCountable(0, files);
  }

  /** The receiver's settings suit what comes through of every file. */
  ghost predicate AllSuit(cfg: RxConfig, ps: seq<Passage>, copies: nat, numbered: bool)
    requires AllPass(ps, copies, numbered)
  {
    forall k :: 0 <= k < |ps| ==> ps[k].Valid(copies, numbered) && Suits(cfg, numbered, ps[k].KeptData(copies))
  }

  /**
   Files sent one after the other over a channel that loses frames but keeps their order are written
   to one output each, if no dispatch holds data behind the preamble that ends a capture. Output k is
   what came through of file k if it does not overflow the heap, and, blocks not being empty, only then.
   */
  lemma FilesArriveSeparately(cfg: RxConfig, ps: seq<Passage>, copies: nat, numbered: bool, events: seq<RxEvent>)
    requires ps != [] && AllPass(ps, copies, numbered) && EachShows(ps, copies, numbered)
    requires AllSuit(cfg, ps, copies, numbered)
    requires Undisturbed(events) && CleanCuts(0, events) && FramesOf(events) == ArrivingAll(ps)
    ensures |Directory(cfg, events)| == |ps|
    ensures forall k :: 0 <= k < |ps| && ps[k].Fits(cfg, copies) ==>
              Directory(cfg, events)[k] == ps[k].Delivered(copies)
    ensures forall k :: 0 <= k < |ps| && NoEmptyBlocks(ps[k].blocks) ==>
              Directory(cfg, events)[k] == ps[k].Delivered(copies) ==> ps[k].Fits(cfg, copies)
  {
    var files := AllParts(ps, copies);
    AllPartsArrive(ps, copies, numbered);
    ShowingFilesAreSeparated(ps, copies, numbered);
    var segments := DirectoryFollowsGroups(cfg, files, events);
    OneGroupPerFileExactly(files);
    assert DataOf(segments) == DataParts(files);
    forall k | 0 <= k < |ps|
      ensures ps[k].Fits(cfg, copies) ==> Directory(cfg, events)[k] == ps[k].Delivered(copies)
      ensures NoEmptyBlocks(ps[k].blocks) && Directory(cfg, events)[k] == ps[k].Delivered(copies)
          ==> ps[k].Fits(cfg, copies)
    {
      assert ps[k].Valid(copies, numbered);
      assert DataFrames(segments[k]) == DataOf(segments)[k] == files[k].data;
      FileReception(cfg, ps[k], copies, numbered, segments[k]);
    }
  }

  // ---------- Several files, in any dispatches ----------

  function DeliveredAll(ps: seq<Passage>, copies: nat): (r: seq<seq<byte>>)
    requires forall i :: 0 <= i < |ps| ==> copies + |ps[i].blocks| <= |ps[i].kept|
    ensures |r| == |ps| && forall k :: 0 <= k < |r| ==> r[k] == ps[k].Delivered(copies)
  {
    if ps == [] then [] else [ps[0].Delivered(copies)] + DeliveredAll(ps[1..], copies)
  }

  ghost predicate AllPassagesFit(cfg: RxConfig, ps: seq<Passage>, copies: nat, numbered: bool)
    requires AllPass(ps, copies, numbered)
  {
    forall k :: 0 <= k < |ps| ==> ps[k].Valid(copies, numbered) && ps[k].Fits(cfg, copies)
  }

  /** The data that arrives of a file is what is delivered of it. */
  lemma DeliveredSize(p: Passage, copies: nat, numbered: bool)
    requires p.Valid(copies, numbered)
    ensures DataSize(p.Parts(copies).data) == |p.Delivered(copies)|
    ensures NoEmptyBlocks(p.blocks) ==> NoneEmptyPayload(p.Parts(copies).data)
  {
    SurvivingPayloads(p.KeptData(copies), p.SentData(copies), p.blocks, 0, numbered);
    if NoEmptyBlocks(p.blocks) {
      SurvivorsAreNotEmpty(p.KeptData(copies), p.SentData(copies), p.blocks, 0, numbered);
    }
  }

  lemma {:induction false} AirIsNotEmpty(files: seq<FileFrames>)
    requires AllValid(files) && forall k :: 0 <= k < |files| ==> NoneEmptyPayload(files[k].data)
    ensures NoneEmptyPayload(DataFrames(OnAir(files)))
  {
    if files != [] {
      FileData(files[0]);
      DataFramesAppend(files[0].Frames(), OnAir(files[1..]));
      AirIsNotEmpty(files[1..]);
      NotEmptySplit(files[0].data, DataFrames(OnAir(files[1..])));
    }
  }

  lemma PassagesAsFiles(ps: seq<Passage>, copies: nat, numbered: bool, files: seq<FileFrames>)
    requires AllPass(ps, copies, numbered) && files == AllParts(ps, copies)
    requires forall k :: 0 <= k < |ps| ==> NoEmptyBlocks(ps[k].blocks)
    ensures AsLongAs(DeliveredAll(ps, copies), files)
    ensures forall k :: 0 <= k < |files| ==> NoneEmptyPayload(files[k].data)
  {
    forall k | 0 <= k < |ps|
      ensures NoneEmptyPayload(files[k].data) && DataSize(files[k].data) == |DeliveredAll(ps, copies)[k]|
    {
      assert ps[k].Valid(copies, numbered);
      DeliveredSize(ps[k], copies, numbered);
    }
  }

  /** The lengths of the outputs tell whether dispatches cut cleanly. */
  lemma LengthsTell(cfg: RxConfig, ps: seq<Passage>, copies: nat, numbered: bool, events: seq<RxEvent>)
    requires ps != [] && AllPass(ps, copies, numbered) && EachShows(ps, copies, numbered)
    requires Noiseless(cfg) || CapturesFit(cfg, DispatchSegments([], 0, events))
    requires forall k :: 0 <= k < |ps| ==> NoEmptyBlocks(ps[k].blocks)
    requires Undisturbed(events) && FramesOf(events) == ArrivingAll(ps)
    ensures Directory(cfg, events) == DeliveredAll(ps, copies) ==> CleanCuts(0, events)
  {
    var files := AllParts(ps, copies);
    PassagesAsFiles(ps, copies, numbered, files);
    AllPartsArrive(ps, copies, numbered);
    ShowingFilesAreSeparated(ps, copies, numbered);
    AirIsNotEmpty(files);
    LengthsShowCleanCuts(cfg, files, events);
  }

  lemma AllAreDelivered(cfg: RxConfig, ps: seq<Passage>, copies: nat, numbered: bool, outputs: seq<seq<byte>>)
    requires AllPass(ps, copies, numbered) && |outputs| == |ps|
    requires forall k :: 0 <= k < |ps| && ps[k].Fits(cfg, copies) ==> outputs[k] == ps[k].Delivered(copies)
    requires forall k :: 0 <= k < |ps| && outputs[k] == ps[k].Delivered(copies) ==> ps[k].Fits(cfg, copies)
    ensures outputs == DeliveredAll(ps, copies) <==> AllPassagesFit(cfg, ps, copies, numbered)
  {
    forall k | 0 <= k < |ps|
      ensures ps[k].Valid(copies, numbered)
      ensures outputs[k] == DeliveredAll(ps, copies)[k] <==> ps[k].Fits(cfg, copies)
    {
    }
  }

  /** With clean cuts the heap decides. */
  lemma CleanFilesArrive(cfg: RxConfig, ps: seq<Passage>, copies: nat, numbered: bool, events: seq<RxEvent>)
    requires ps != [] && AllPass(ps, copies, numbered) && EachShows(ps, copies, numbered)
    requires AllSuit(cfg, ps, copies, numbered)
    requires forall k :: 0 <= k < |ps| ==> NoEmptyBlocks(ps[k].blocks)
    requires Undisturbed(events) && CleanCuts(0, events) && FramesOf(events) == ArrivingAll(ps)
    ensures Directory(cfg, events) == DeliveredAll(ps, copies) <==> AllPassagesFit(cfg, ps, copies, numbered)
  {
    FilesArriveSeparately(cfg, ps, copies, numbered, events);
    AllAreDelivered(cfg, ps, copies, numbered, Directory(cfg, events));
  }

  /**
   The outputs are what came through of the files, one by one, exactly if no dispatch holds data behind
   the preamble that ends a capture and no window of any file overflows the heap: without noise always,
   with noise if no capture overflows the heap.
   */
  lemma FilesArriveExactly(cfg: RxConfig, ps: seq<Passage>, copies: nat, numbered: bool, events: seq<RxEvent>)
    requires ps != [] && AllPass(ps, copies, numbered) && EachShows(ps, copies, numbered)
    requires AllSuit(cfg, ps, copies, numbered)
    requires Noiseless(cfg) || CapturesFit(cfg, DispatchSegments([], 0, events))
    requires forall k :: 0 <= k < |ps| ==> NoEmptyBlocks(ps[k].blocks)
    requires Undisturbed(events) && FramesOf(events) == ArrivingAll(ps)
    ensures Directory(cfg, events) == DeliveredAll(ps, copies)
       <==> CleanCuts(0, events) && AllPassagesFit(cfg, ps, copies, numbered)
  {
    LengthsTell(cfg, ps, copies, numbered, events);
    if CleanCuts(0, events) {
      CleanFilesArrive(cfg, ps, copies, numbered, events);
    }
  }
}
