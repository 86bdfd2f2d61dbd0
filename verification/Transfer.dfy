/** The two programs together: files go in at the transmitter and come out at the receiver. */
module Transfer {
  import opened Machine
  import opened Sequences
  import opened Wire
  import opened ReceiverModel
  import opened Receiver
  import opened TransmitterModel
  import opened Transmitter
  import opened Transmission
  import opened TransmitProgram
  import opened Splitting
  import opened Dispatching
  import opened Channel
  import opened Reception
  import opened RoundTrip
  import opened EndToEnd

  // ---------- What goes out ----------

  function AllChunks(blockSize: nat, contents: seq<seq<byte>>): (r: seq<seq<seq<byte>>>)
    requires blockSize > 0
    ensures |r| == |contents| && forall k :: 0 <= k < |r| ==> r[k] == Chunks(blockSize, contents[k])
  {
    if contents == [] then [] else [Chunks(blockSize, contents[0])] + AllChunks(blockSize, contents[1..])
  }

  lemma AllChunksAppend(blockSize: nat, a: seq<seq<byte>>, b: seq<seq<byte>>)
    requires blockSize > 0
    ensures AllChunks(blockSize, a + b) == AllChunks(blockSize, a) + AllChunks(blockSize, b)
  {
  }

  /** Passes that all end normally. */
  function AllRan(blocks: seq<seq<seq<byte>>>): Sent {
    Sent(Map((b: seq<seq<byte>>) => Ran(b, TxNormal), blocks), TxNormal)
  }

  lemma {:induction false} RunsOfAllRan(blocks: seq<seq<seq<byte>>>)
    ensures Runs(AllRan(blocks).log) == blocks
  {
    if blocks != [] {
      RunsOfAllRan(blocks[1..]);
      assert AllRan(blocks).log[1..] == AllRan(blocks[1..]).log;
    }
  }

  lemma AllRanAppend(a: seq<seq<seq<byte>>>, b: seq<seq<seq<byte>>>)
    ensures AllRan(a + b) == Then(AllRan(a), AllRan(b))
  {
    assert AllRan(a + b).log == AllRan(a).log + AllRan(b).log;
  }

  lemma UndisturbedPass(blockSize: nat, f: FileSource, k: nat)
    requires blockSize > 0 && f.attempts == []
    ensures Made(Pass(blockSize, f, k)) == AllRan([Chunks(blockSize, f.content)])
  {
    FullReadsMakeChunks(blockSize, Start(f.content));
    assert [] + Chunks(blockSize, f.content) == Chunks(blockSize, f.content);
  }

  lemma {:induction false} UndisturbedFile(blockSize: nat, f: FileSource, k: nat, remaining: nat)
    requires blockSize > 0 && f.attempts == []
    ensures SendFile(blockSize, f, k, remaining) == AllRan(AllChunks(blockSize, Fill(remaining, f.content)))
    decreases remaining
  {
    if remaining > 0 {
      UndisturbedPass(blockSize, f, k);
      UndisturbedFile(blockSize, f, k + 1, remaining - 1);
      assert Fill(remaining, f.content) == [f.content] + Fill(remaining - 1, f.content);
      assert AllChunks(blockSize, [f.content]) == [Chunks(blockSize, f.content)];
      AllChunksAppend(blockSize, [f.content], Fill(remaining - 1, f.content));
      AllRanAppend([Chunks(blockSize, f.content)], AllChunks(blockSize, Fill(remaining - 1, f.content)));
    }
  }

  /** Undisturbed, the program sends every file that opens in full blocks, as often as asked for. */
  lemma {:induction false} UndisturbedFiles(blockSize: nat, files: seq<FileSource>, retransmitCount: nat)
    requires blockSize > 0 && forall i :: 0 <= i < |files| ==> files[i].attempts == []
    ensures SendFiles(blockSize, files, retransmitCount)
         == AllRan(AllChunks(blockSize, Playlist(files, retransmitCount)))
  {
    if files != [] {
      var later := Playlist(files[1..], retransmitCount);
      UndisturbedFiles(blockSize, files[1..], retransmitCount);
      if files[0].opens {
        var first := Fill(Times(files[0], retransmitCount), files[0].content);
        UndisturbedFile(blockSize, files[0], 0, Times(files[0], retransmitCount));
        AllChunksAppend(blockSize, first, later);
        AllRanAppend(AllChunks(blockSize, first), AllChunks(blockSize, later));
      } else {
        assert [] + later == later;
      }
    }
  }

  // ---------- What comes back ----------

  /** A file that can be told from control frames and numbered with positive 32-bit numbers. */
  ghost predicate Sendable(blockSize: nat, content: seq<byte>)
    requires blockSize > 0
  {
    && content != [] && |Chunks(blockSize, content)| <= 0x8000_0000
    && NoControlBlocks(Chunks(blockSize, content))
  }

  ghost predicate AllSendable(blockSize: nat, contents: seq<seq<byte>>)
    requires blockSize > 0
  {
    forall k :: 0 <= k < |contents| ==> Sendable(blockSize, contents[k])
  }

  /** Transmissions of which everything comes through. */
  function Whole(ts: seq<seq<Frame>>, runs: seq<seq<seq<byte>>>): (ps: seq<Passage>)
    requires |ts| == |runs|
    ensures |ps| == |ts|
    ensures forall k :: 0 <= k < |ps| ==> ps[k] == Passage(ts[k], runs[k], Fill(|ts[k]|, true))
  {
    if ts == [] then [] else [Passage(ts[0], runs[0], Fill(|ts[0]|, true))] + Whole(ts[1..], runs[1..])
  }

  lemma {:induction false} WholeArrives(ts: seq<seq<Frame>>, runs: seq<seq<seq<byte>>>)
    requires |ts| == |runs|
    ensures ArrivingAll(Whole(ts, runs)) == Concat(ts)
  {
    if ts != [] {
      AllSurvive(Fill(|ts[0]|, true), ts[0]);
      WholeArrives(ts[1..], runs[1..]);
      assert Whole(ts, runs)[1..] == Whole(ts[1..], runs[1..]);
    }
  }

  lemma KeptSlice(n: nat, at: nat, m: nat)
    requires at + m <= n
    ensures Fill(n, true)[at..at + m] == Fill(m, true) && false !in Fill(m, true)
    ensures m > 0 ==> true in Fill(m, true)
  {
    assert m > 0 ==> Fill(m, true)[0];
  }

  /** A passage without loss delivers all its blocks. */
  lemma WholePassage(p: Passage, copies: nat, numbered: bool)
    requires p.Valid(copies, numbered) && p.kept == Fill(|p.frames|, true)
    ensures p.KeptData(copies) == Fill(|p.blocks|, true) && p.Delivered(copies) == Concat(p.blocks)
    ensures copies > 0 ==> true in p.kept[..copies]
    ensures p.blocks != [] ==> true in p.KeptData(copies)
  {
    KeptSlice(|p.kept|, 0, copies);
    KeptSlice(|p.kept|, copies, |p.blocks|);
    AllSurvive(p.KeptData(copies), p.blocks);
  }

  lemma WholeFile(cfg: RxConfig, p: Passage, blockSize: nat, content: seq<byte>, copies: nat, numbered: bool)
    requires blockSize >= BLOCK_SIZE_MIN && Sendable(blockSize, content)
    requires IsTransmission(p.frames, Chunks(blockSize, content), copies, numbered)
    requires p == Passage(p.frames, Chunks(blockSize, content), Fill(|p.frames|, true))
    requires cfg.pbSize <= PACKET_BUFFER_MAX && (cfg.ordered ==> numbered)
    ensures p.Valid(copies, numbered) && p.Fits(cfg, copies) && Suits(cfg, numbered, p.KeptData(copies))
    ensures p.Delivered(copies) == content
    ensures (copies > 0 ==> true in p.kept[..copies]) && true in p.KeptData(copies)
  {
    ChunksAreLong(blockSize, content);
    WholePassage(p, copies, numbered);
    BlocksFit(cfg, p, copies, numbered);
  }

  /** Whole transmissions of several files are received as those files. */
  lemma TransmissionsAreReceived(cfg: RxConfig, ts: seq<seq<Frame>>, contents: seq<seq<byte>>, blockSize: nat,
                                 copies: nat, numbered: bool, events: seq<RxEvent>)
    requires blockSize >= BLOCK_SIZE_MIN && contents != [] && AllSendable(blockSize, contents) && copies > 0
    requires AreTransmissions(ts, AllChunks(blockSize, contents), copies, numbered)
    requires cfg.pbSize <= PACKET_BUFFER_MAX && (cfg.ordered ==> numbered)
    requires OneByOne(events) && FramesOf(events) == Concat(ts)
    ensures Directory(cfg, events) == contents
  {
    var ps := Whole(ts, AllChunks(blockSize, contents));
    WholeArrives(ts, AllChunks(blockSize, contents));
    forall k | 0 <= k < |ps|
      ensures ps[k].Valid(copies, numbered) && ps[k].Fits(cfg, copies)
      ensures Suits(cfg, numbered, ps[k].KeptData(copies))
      ensures ps[k].Delivered(copies) == contents[k]
      ensures true in ps[k].kept[..copies] && true in ps[k].KeptData(copies)
    {
      assert IsTransmission(ts[k], AllChunks(blockSize, contents)[k], copies, numbered);
      assert Sendable(blockSize, contents[k]);
      WholeFile(cfg, ps[k], blockSize, contents[k], copies, numbered);
    }
    OneByOneIsClean(0, events);
    FilesArriveSeparately(cfg, ps, copies, numbered, events);
  }

  // ---------- The programs ----------

  /** A savefile, dispatched one frame at a time. */
  function Replay(frames: seq<Frame>): seq<RxEvent> {
    if frames == [] then [] else [Dispatch([frames[0]], false)] + Replay(frames[1..])
  }

  lemma {:induction false} ReplayShowsEveryFrame(cfg: RxConfig, frames: seq<Frame>)
    requires forall i :: 0 <= i < |frames| ==> |frames[i]| <= cfg.pbSize
    ensures OneByOne(Replay(frames)) && FramesOf(Replay(frames)) == frames && EventsFit(cfg, Replay(frames))
  {
    if frames != [] {
      var first, rest := Dispatch([frames[0]], false), Replay(frames[1..]);
      ReplayShowsEveryFrame(cfg, frames[1..]);
      assert ([first] + rest)[1..] == rest;
      assert first.frames[1..] == [];
      assert AllFit(cfg, first.frames);
    }
  }

  /** Every frame of a transmission fits the maximum transmission unit. */
  lemma TransmissionFits(frames: seq<Frame>, blockSize: nat, content: seq<byte>, copies: nat, numbered: bool)
    requires BLOCK_SIZE_MIN <= blockSize <= BLOCK_SIZE_MAX
    requires IsTransmission(frames, Chunks(blockSize, content), copies, numbered)
    ensures forall i :: 0 <= i < |frames| ==> |frames[i]| <= MTU
  {
    var blocks := Chunks(blockSize, content);
    var parts := PartsOf(frames, copies, |blocks|);
    ChunksAreFull(blockSize, content);
    forall i | 0 <= i < |frames| ensures |frames[i]| <= MTU {
      if i < copies {
        assert Carries(parts.preambles[i], Fill(CONTROL_DATA_LEN, PREAMBLE_BYTE));
      } else if i < copies + |blocks| {
        assert Carries(parts.data[i - copies], blocks[i - copies]);
      } else {
        assert Carries(parts.eots[i - copies - |blocks|], Fill(CONTROL_DATA_LEN, EOT_BYTE));
      }
    }
  }

  lemma {:induction false} TransmissionsFit(ts: seq<seq<Frame>>, contents: seq<seq<byte>>, blockSize: nat,
                                            copies: nat, numbered: bool)
    requires BLOCK_SIZE_MIN <= blockSize <= BLOCK_SIZE_MAX
    requires AreTransmissions(ts, AllChunks(blockSize, contents), copies, numbered)
    ensures forall i :: 0 <= i < |Concat(ts)| ==> |Concat(ts)[i]| <= MTU
  {
    if ts != [] {
      forall k | 0 <= k < |ts| - 1
        ensures IsTransmission(ts[1..][k], AllChunks(blockSize, contents[1..])[k], copies, numbered)
      {
        assert IsTransmission(ts[k + 1], AllChunks(blockSize, contents)[k + 1], copies, numbered);
      }
      TransmissionsFit(ts[1..], contents[1..], blockSize, copies, numbered);
      TransmissionFits(ts[0], blockSize, contents[0], copies, numbered);
    }
  }

  /**
   The transmission program sends the files into a savefile, the reception program replays it into
   a directory, and the outputs are the files that open, each as often as it was sent.
   */
  method TransferFiles(blockSize: nat, redundantCtrlFrames: nat, header: HeaderFields, delay: bool, order: bool,
                       files: seq<FileSource>, retransmitCount: nat, cfg: RxConfig)
    returns (outputs: seq<seq<byte>>)
    requires BLOCK_SIZE_MIN <= blockSize <= BLOCK_SIZE_MAX && ValidFields(header)
    requires forall i :: 0 <= i < |files| ==> files[i].attempts == []
    requires Playlist(files, retransmitCount) != []
    requires AllSendable(blockSize, Playlist(files, retransmitCount))
    requires MTU <= cfg.pbSize <= PACKET_BUFFER_MAX && (cfg.ordered ==> order)
    ensures outputs == Playlist(files, retransmitCount)
  {
    var tx := new DxwifiTransmitter(blockSize, redundantCtrlFrames, header);
    AttachProgramHandlers(tx, delay, order);
    ghost var contents := Playlist(files, retransmitCount);
    ghost var copies, numbered := Copies(redundantCtrlFrames), tx.Numbered();
    UndisturbedFiles(blockSize, files, retransmitCount);
    RunsOfAllRan(AllChunks(blockSize, contents));
    var state;
    ghost var ts;
    state, ts := TransmitFiles(tx, files, retransmitCount);
    assert tx.sent == Concat(ts);
    TransmissionsFit(ts, contents, blockSize, copies, numbered);
    ReplayShowsEveryFrame(cfg, tx.sent);
    TransmissionsAreReceived(cfg, ts, contents, blockSize, copies, numbered, Replay(tx.sent));
    var rx := new DxwifiReceiver(cfg);
    outputs := rx.CaptureInDirectory(Replay(tx.sent));
  }
}
