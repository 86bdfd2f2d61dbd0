/** The transmission program dxwifi/tx/tx.c: handlers, the list of files, repeated transmissions. */
module TransmitProgram {
  import opened Machine
  import opened Sequences
  import opened Wire
  import opened TransmitterModel
  import opened Transmitter
  import opened Transmission
  import opened TransmitSchedules

  // ---------- Attaching handlers ----------

  lemma {:induction false} AttachKeeps(pipeline: seq<Handler>, i: nat, h: Handler)
    requires i < |pipeline| && AllKeepPayload(pipeline) && KeepsPayload(h)
    ensures AllKeepPayload(pipeline[i := h])
    decreases i
  {
    if i > 0 {
      assert pipeline[i := h][1..] == pipeline[1..][i - 1 := h];
      AttachKeeps(pipeline[1..], i - 1, h);
    } else {
      assert pipeline[i := h][1..] == pipeline[1..];
    }
  }

  /** Puts the callback into the first empty slot, or reports that there is none. */
  method AttachHandler(pipeline: array<Handler>, callback: Callback) returns (index: int)
    requires pipeline.Length == HANDLER_MAX
    modifies pipeline
    ensures -1 <= index < HANDLER_MAX
    ensures index == -1 ==> pipeline[..] == old(pipeline[..])
    ensures index == -1 ==> forall i :: 0 <= i < HANDLER_MAX ==> old(pipeline[i]).Handler?
    ensures index >= 0 ==> pipeline[..] == old(pipeline[..])[index := Handler(callback)]
    ensures index >= 0 ==> old(pipeline[index]).NoHandler?
    ensures index >= 0 ==> forall i :: 0 <= i < index ==> old(pipeline[i]).Handler?
  {
    for i := 0 to HANDLER_MAX
      invariant pipeline[..] == old(pipeline[..])
      invariant forall j :: 0 <= j < i ==> pipeline[j].Handler?
    {
      if pipeline[i].NoHandler? {
        pipeline[i] := Handler(callback);
        return i;
      }
    }
    return -1;
  }

  /** The handlers the program attaches before the injection. */
  function ProgramPipeline(delay: bool, ordered: bool): (p: seq<Handler>)
    ensures |p| <= 2
  {
    (if delay then [Handler(DelayTransmission)] else []) + (if ordered then [Handler(AttachFrameNumber)] else [])
  }

  /** The program's handlers keep every payload, and they number the frames when the order flag is set. */
  lemma ProgramPipelineWorks(delay: bool, ordered: bool)
    ensures var p := ProgramPipeline(delay, ordered) + Fill(HANDLER_MAX - |ProgramPipeline(delay, ordered)|, NoHandler);
            && AllKeepPayload(p) && AllKeepFields(p)
            && (ordered ==> Numbering(p)) && (!ordered ==> AllKeepNumber(p))
  {
    ProgramHandlers();
    var tail := if ordered then [Handler(AttachFrameNumber)] else [];
    var slots := Fill(HANDLER_MAX - |ProgramPipeline(delay, ordered)|, NoHandler);
    EmptySlotsKeep(slots);
    var p := tail + slots;
    if ordered {
      assert p[0] == Handler(AttachFrameNumber) && p[1..] == slots;
    } else {
      assert p == slots;
    }
    assert AllKeepPayload(p) && AllKeepFields(p) && (ordered ==> Numbering(p)) && (!ordered ==> AllKeepNumber(p));
    var all := ProgramPipeline(delay, ordered) + slots;
    if delay {
      assert all[0] == Handler(DelayTransmission) && all[1..] == p;
    } else {
      assert all == p;
    }
  }

  /** Attaches the program's handlers to a transmitter that has none. */
  method AttachProgramHandlers(tx: DxwifiTransmitter, delay: bool, ordered: bool)
    requires tx.Valid() && tx.preinjection[..] == Fill(HANDLER_MAX, NoHandler)
    requires tx.preinjection != tx.postinjection
    modifies tx.preinjection
    ensures tx.Valid() && (ordered ==> tx.Numbered()) && (!ordered ==> tx.Unnumbered())
    ensures AllKeepFields(tx.postinjection[..]) && AllKeepNumber(tx.postinjection[..]) ==> tx.KeepsHeader()
    ensures tx.preinjection[..]
         == ProgramPipeline(delay, ordered) + Fill(HANDLER_MAX - |ProgramPipeline(delay, ordered)|, NoHandler)
  {
    var slots := tx.preinjection;
    assert slots[0].NoHandler?;
    if delay {
      var i := AttachHandler(slots, DelayTransmission);
      assert i == 0;
      assert slots[..] == ProgramPipeline(delay, false) + Fill(HANDLER_MAX - 1, NoHandler);
    }
    ghost var n := if delay then 1 else 0;
    assert slots[..] == ProgramPipeline(delay, false) + Fill(HANDLER_MAX - n, NoHandler);
    if ordered {
      assert slots[n] == NoHandler && forall j :: 0 <= j < n ==> slots[j].Handler?;
      var i := AttachHandler(slots, AttachFrameNumber);
      assert i == n;
      assert slots[..] == ProgramPipeline(delay, true) + Fill(HANDLER_MAX - n - 1, NoHandler);
    }
    ProgramPipelineWorks(delay, ordered);
  }

  // ---------- The headers on the air ----------

  /** The last four bytes of the receiver address, where the receiver looks for the number. */
  function NumberBytes(f: Frame): seq<byte> {
    if |f| < TX_HEADER_LEN then [] else f[18..22]
  }

  /** The number field of frame `i`: broadcast in preambles, then the number, at last that of the last data frame. */
  function NumberAt(i: nat, n: nat, copies: nat, ordered: bool): seq<byte> {
    if !ordered || i < copies || n == 0 then Fill(4, 0xff)
    else ToBigEndian32(U32(if i < copies + n then i - copies else n - 1))
  }

  /** The configured header in every frame, but for the number field. */
  ghost predicate ProperHeaders(frames: seq<Frame>, n: nat, h: HeaderFields, copies: nat, ordered: bool)
    requires ValidFields(h)
  {
    forall i :: 0 <= i < |frames| ==>
      SameFields(frames[i], HeaderBytes(h)) && NumberBytes(frames[i]) == NumberAt(i, n, copies, ordered)
  }

  lemma HeadOf(f: Frame, head: seq<byte>)
    requires Head(f) == head && |head| == TX_HEADER_LEN
    ensures SameFields(f, head) && NumberBytes(f) == head[18..22]
  {
  }

  lemma DataHead(frames: seq<Frame>, blocks: seq<seq<byte>>, i: nat)
    requires AreData(frames, blocks, 0, true) && i < |frames|
    ensures NumberBytes(frames[i]) == ToBigEndian32(U32(i))
  {
    var f := frames[i];
    assert Carries(f, blocks[i]) && FrameNumber(f) == U32(0 + i);
    assert f[RADIOTAP_TX_LEN + 6..RADIOTAP_TX_LEN + 10] == f[18..22];
    BigEndian32Unpacks(f[18..22]);
  }

  lemma BroadcastNumber(h: HeaderFields)
    requires ValidFields(h)
    ensures HeaderBytes(h)[18..22] == Fill(4, 0xff)
  {
  }

  lemma DataHeader(frames: seq<Frame>, blocks: seq<seq<byte>>, h: HeaderFields, copies: nat, ordered: bool,
                   fixed: bool, i: nat)
    requires ValidFields(h) && IsTransmission(frames, blocks, copies, ordered) && (ordered || fixed)
    requires HeadersSent(frames, h, copies, |blocks|, fixed) && copies <= i < copies + |blocks|
    ensures NumberBytes(frames[i]) == NumberAt(i, |blocks|, copies, ordered)
  {
    if ordered {
      DataHead(frames[copies..copies + |blocks|], blocks, i - copies);
    } else {
      BroadcastNumber(h);
      HeadOf(frames[i], HeaderBytes(h));
    }
  }

  /**
   Every frame has the configured header. Its number field is the number of a data frame if the order flag
   is set, that of the last data frame behind the data, and broadcast everywhere else.
   */
  lemma HeadersAreProper(frames: seq<Frame>, blocks: seq<seq<byte>>, h: HeaderFields, copies: nat, ordered: bool,
                         fixed: bool)
    requires ValidFields(h) && IsTransmission(frames, blocks, copies, ordered) && (ordered || fixed)
    requires HeadersSent(frames, h, copies, |blocks|, fixed)
    ensures ProperHeaders(frames, |blocks|, h, copies, ordered)
  {
    var n := |blocks|;
    forall i | 0 <= i < |frames|
      ensures SameFields(frames[i], HeaderBytes(h)) && NumberBytes(frames[i]) == NumberAt(i, n, copies, ordered)
    {
      BroadcastNumber(h);
      if copies <= i < copies + n {
        DataHeader(frames, blocks, h, copies, ordered, fixed, i);
      } else if i < copies || n == 0 {
        HeadOf(frames[i], HeaderBytes(h));
      } else {
        var last := copies + n - 1;
        DataHeader(frames, blocks, h, copies, ordered, fixed, last);
        SameHead(frames[i], frames[last], HeaderBytes(h));
      }
    }
  }

  lemma SameHead(f: Frame, g: Frame, head: seq<byte>)
    requires Head(f) == Head(g) && SameFields(g, head)
    ensures SameFields(f, head) && NumberBytes(f) == NumberBytes(g)
  {
    HeadFields(g, head);
    HeadOf(g, Head(g));
    HeadOf(f, Head(g));
  }

  /** Stream mode: whatever comes from the input is sent under the program's handlers. */
  method TransmitStream(tx: DxwifiTransmitter, delay: bool, ordered: bool, input: seq<byte>, events: seq<TxEvent>,
                        lateStop: bool)
    returns (state: TxStatus, ghost blocks: seq<seq<byte>>, ghost frames: seq<Frame>)
    requires tx.Valid() && tx.preinjection[..] == Fill(HANDLER_MAX, NoHandler)
    requires tx.preinjection != tx.postinjection && tx.postinjection[..] == Fill(HANDLER_MAX, NoHandler)
    modifies tx`sent, tx`activated, tx.preinjection
    ensures tx.sent == old(tx.sent) + frames
    ensures IsTransmission(frames, blocks, Copies(tx.redundantCtrlFrames), ordered)
    ensures ProperHeaders(frames, |blocks|, tx.header, Copies(tx.redundantCtrlFrames), ordered)
    ensures tx.blockSize > 0 && (forall e :: e in events ==> e.TxReady? && !e.stop) ==>
              Concat(blocks) == input && state == if lateStop then TxDeactivated else TxNormal
  {
    AttachProgramHandlers(tx, delay, ordered);
    EmptySlotsKeep(tx.postinjection[..]);
    var stats;
    ghost var p;
    stats, p, frames := tx.StartTransmission(input, events, lateStop);
    state, blocks := stats.status, p.blocks;
    HeadersAreProper(frames, blocks, tx.header, Copies(tx.redundantCtrlFrames), ordered, tx.Unnumbered());
    if tx.blockSize > 0 && forall e :: e in events ==> e.TxReady? && !e.stop {
      ReadyInputIsSent(tx.blockSize, events, input);
    }
  }

  // ---------- Accounting ----------

  lemma {:induction false} TotalSizeIsLength(blocks: seq<seq<byte>>)
    ensures TotalSize(blocks) == |Concat(blocks)|
  {
    if blocks != [] {
      TotalSizeIsLength(blocks[1..]);
    }
  }

  /** `frames` data frames with `read` payload bytes have been sent. */
  predicate Sums(stats: TxStats, read: nat, frames: nat) {
    && stats.frameCount == U32(frames)
    && stats.totalBytesRead == U32(read)
    && stats.totalBytesSent == U32(read + (TX_HEADER_LEN + FCS_LEN) * frames)
  }

  lemma ChunksAreAccounted(stats: TxStats, blockSize: nat, input: seq<byte>)
    requires blockSize > 0 && Accounts(stats, TxLoop(blockSize, [], Start(input)))
    ensures Sums(stats, |input|, |Chunks(blockSize, input)|)
  {
    var blocks := Chunks(blockSize, input);
    FullReadsMakeChunks(blockSize, Start(input));
    assert [] + blocks == blocks;
    ChunksAreFull(blockSize, input);
    TotalSizeIsLength(blocks);
  }

  /** Full reads of an input of length n make ceil(n / blockSize) frames, with forty bytes of framing each. */
  lemma FullReadsAreAccounted(stats: TxStats, blockSize: nat, input: seq<byte>)
    requires blockSize > 0 && Accounts(stats, TxLoop(blockSize, [], Start(input)))
    ensures Sums(stats, |input|, (|input| + blockSize - 1) / blockSize)
  {
    ChunksAreAccounted(stats, blockSize, input);
    ChunkCount(blockSize, input);
  }

  // ---------- Files ----------

  /** How one pass over a file goes: the seek, the schedule of the loop, a stop after the loop. */
  datatype Attempt = Attempt(seekable: bool, events: seq<TxEvent>, lateStop: bool)

  /** Attempts beyond the listed ones go undisturbed. */
  datatype FileSource = FileSource(opens: bool, content: seq<byte>, attempts: seq<Attempt>)

  function NthAttempt(f: FileSource, k: nat): Attempt {
    if k < |f.attempts| then f.attempts[k] else Attempt(true, [], false)
  }

  /** How one pass over a file went: nothing was sent, or these blocks, with this status in the end. */
  datatype PassResult = SeekFailed | Ran(blocks: seq<seq<byte>>, reported: TxStatus)
  {
    function Status(): TxStatus {
      if SeekFailed? then TxError else reported
    }
  }

  /** One pass: seek to the beginning, then transmit. */
  function Pass(blockSize: nat, f: FileSource, k: nat): PassResult {
    var a := NthAttempt(f, k);
    if !a.seekable then SeekFailed
    else
      var p := TxLoop(blockSize, a.events, Start(f.content));
      Ran(p.blocks, FinalStatus(p, a.lateStop))
  }

  /** The passes made, in order, and the state of the program after them. */
  datatype Sent = Sent(log: seq<PassResult>, status: TxStatus)

  const NOTHING: Sent := Sent([], TxNormal)

  function Made(p: PassResult): Sent {
    Sent([p], p.Status())
  }

  /** What follows `first` takes place only if `first` ended normally. */
  function Then(first: Sent, later: Sent): Sent {
    if first.status != TxNormal then first else Sent(first.log + later.log, later.status)
  }

  function SendFile(blockSize: nat, f: FileSource, k: nat, remaining: nat): Sent
    decreases remaining
  {
    if remaining == 0 then NOTHING
    else Then(Made(Pass(blockSize, f, k)), SendFile(blockSize, f, k + 1, remaining - 1))
  }

  /**
   Passes over a file when nothing goes wrong. Count -1 means forever; such a run comes to its end in
   one of the listed attempts, or not at all.
   */
  function Times(f: FileSource, retransmitCount: int): nat {
    if retransmitCount == -1 then |f.attempts| else if retransmitCount < 0 then 0 else retransmitCount + 1
  }

  function SendFiles(blockSize: nat, files: seq<FileSource>, retransmitCount: int): Sent {
    if files == [] then NOTHING
    else if !files[0].opens then SendFiles(blockSize, files[1..], retransmitCount)
    else Then(SendFile(blockSize, files[0], 0, Times(files[0], retransmitCount)),
              SendFiles(blockSize, files[1..], retransmitCount))
  }

  // ---------- What should go out ----------

  function Passes(blockSize: nat, f: FileSource, k: nat, n: nat): (r: seq<PassResult>)
    ensures |r| == n && forall i :: 0 <= i < n ==> r[i] == Pass(blockSize, f, k + i)
    decreases n
  {
    if n == 0 then [] else [Pass(blockSize, f, k)] + Passes(blockSize, f, k + 1, n - 1)
  }

  /** All passes over all files that open, in list order, as if none went wrong. */
  function AllPasses(blockSize: nat, files: seq<FileSource>, retransmitCount: int): seq<PassResult> {
    if files == [] then []
    else (if files[0].opens then Passes(blockSize, files[0], 0, Times(files[0], retransmitCount)) else [])
         + AllPasses(blockSize, files[1..], retransmitCount)
  }

  /** The content that every one of these passes should send. */
  function Playlist(files: seq<FileSource>, retransmitCount: int): seq<seq<byte>> {
    if files == [] then []
    else (if files[0].opens then Fill(Times(files[0], retransmitCount), files[0].content) else [])
         + Playlist(files[1..], retransmitCount)
  }

  /**
   The passes made are those in `all` up to the first one that does not end normally; the state is
   that of the last one.
   */
  ghost predicate UpToFailure(sent: Sent, all: seq<PassResult>) {
    var n := |sent.log|;
    && n <= |all| && sent.log == all[..n]
    && (forall i :: 0 <= i < n - 1 ==> sent.log[i].Status() == TxNormal)
    && sent.status == (if n == 0 then TxNormal else sent.log[n - 1].Status())
    && (n == |all| || sent.status != TxNormal)
  }

  lemma ThenUpToFailure(a: Sent, allA: seq<PassResult>, b: Sent, allB: seq<PassResult>)
    requires UpToFailure(a, allA) && UpToFailure(b, allB)
    ensures UpToFailure(Then(a, b), allA + allB)
  {
    if a.status == TxNormal {
      assert a.log == allA;
      assert (allA + allB)[..|a.log| + |b.log|] == a.log + b.log;
    } else {
      assert (allA + allB)[..|a.log|] == allA[..|a.log|];
    }
  }

  lemma MadeUpToFailure(p: PassResult)
    ensures UpToFailure(Made(p), [p])
  {
  }

  lemma {:induction false} FilePasses(blockSize: nat, f: FileSource, k: nat, remaining: nat)
    ensures UpToFailure(SendFile(blockSize, f, k, remaining), Passes(blockSize, f, k, remaining))
    decreases remaining
  {
    if remaining > 0 {
      var p := Pass(blockSize, f, k);
      FilePasses(blockSize, f, k + 1, remaining - 1);
      MadeUpToFailure(p);
      ThenUpToFailure(Made(p), [p], SendFile(blockSize, f, k + 1, remaining - 1),
                      Passes(blockSize, f, k + 1, remaining - 1));
    }
  }

  lemma {:induction false} PassesInOrder(blockSize: nat, files: seq<FileSource>, retransmitCount: int)
    ensures UpToFailure(SendFiles(blockSize, files, retransmitCount), AllPasses(blockSize, files, retransmitCount))
  {
    if files != [] {
      var f, later := files[0], SendFiles(blockSize, files[1..], retransmitCount);
      var allLater := AllPasses(blockSize, files[1..], retransmitCount);
      PassesInOrder(blockSize, files[1..], retransmitCount);
      if f.opens {
        var n := Times(f, retransmitCount);
        FilePasses(blockSize, f, 0, n);
        ThenUpToFailure(SendFile(blockSize, f, 0, n), Passes(blockSize, f, 0, n), later, allLater);
      } else {
        assert [] + allLater == allLater;
      }
    }
  }

  /** One of the listed attempts does not end normally. */
  ghost predicate Ends(blockSize: nat, f: FileSource) {
    exists j :: 0 <= j < |f.attempts| && Pass(blockSize, f, j).Status() != TxNormal
  }

  /** The first file that opens, which is then the only one, is such a file. */
  ghost predicate FirstEnds(blockSize: nat, files: seq<FileSource>) {
    files != [] ==> if files[0].opens then Ends(blockSize, files[0]) else FirstEnds(blockSize, files[1..])
  }

  /** A run that ends does so in a state other than normal. */
  lemma EndedRun(blockSize: nat, f: FileSource)
    requires Ends(blockSize, f)
    ensures SendFile(blockSize, f, 0, |f.attempts|).status != TxNormal
  {
    var n := |f.attempts|;
    var all := Passes(blockSize, f, 0, n);
    FilePasses(blockSize, f, 0, n);
    var j :| 0 <= j < n && Pass(blockSize, f, j).Status() != TxNormal;
    assert all[j] == Pass(blockSize, f, 0 + j);
    FailureEnds(SendFile(blockSize, f, 0, n), all, j);
  }

  lemma FailureEnds(sent: Sent, all: seq<PassResult>, j: nat)
    requires UpToFailure(sent, all) && j < |all| && all[j].Status() != TxNormal
    ensures sent.status != TxNormal
  {
    if |sent.log| == |all| {
      assert sent.log[j] == all[j];
    }
  }

  lemma {:induction false} ForeverEndsInFailure(blockSize: nat, files: seq<FileSource>)
    requires FirstEnds(blockSize, files) && exists i :: 0 <= i < |files| && files[i].opens
    ensures SendFiles(blockSize, files, -1).status != TxNormal
  {
    var i :| 0 <= i < |files| && files[i].opens;
    if files[0].opens {
      EndedRun(blockSize, files[0]);
    } else {
      assert files[1..][i - 1].opens;
      ForeverEndsInFailure(blockSize, files[1..]);
    }
  }

  /**
   The passes that are made are exactly those over every file that opens, count + 1 times each, in
   list order, up to the first one that does not end normally; its status is the last one. With count
   -1 they all go to the first file that opens, and a run that ends does so because one of them did
   not end normally.
   */
  lemma FilesAreSentInOrder(blockSize: nat, files: seq<FileSource>, retransmitCount: int)
    requires retransmitCount == -1 ==> FirstEnds(blockSize, files)
    ensures UpToFailure(SendFiles(blockSize, files, retransmitCount), AllPasses(blockSize, files, retransmitCount))
    ensures retransmitCount == -1 && (exists i :: 0 <= i < |files| && files[i].opens) ==>
              SendFiles(blockSize, files, retransmitCount).status != TxNormal
  {
    PassesInOrder(blockSize, files, retransmitCount);
    if retransmitCount == -1 && exists i :: 0 <= i < |files| && files[i].opens {
      ForeverEndsInFailure(blockSize, files);
    }
  }

  // ---------- How often, and what ends the list ----------

  /** The contents of the files that open. */
  function Opening(files: seq<FileSource>): seq<seq<byte>> {
    if files == [] then [] else (if files[0].opens then [files[0].content] else []) + Opening(files[1..])
  }

  /** Every content `n` times before the next one. */
  function Repeated(contents: seq<seq<byte>>, n: nat): seq<seq<byte>> {
    if contents == [] then [] else Fill(n, contents[0]) + Repeated(contents[1..], n)
  }

  lemma OpeningStep(files: seq<FileSource>, n: nat)
    requires files != []
    ensures Repeated(Opening(files), n)
         == (if files[0].opens then Fill(n, files[0].content) else []) + Repeated(Opening(files[1..]), n)
    ensures |Opening(files)| == (if files[0].opens then 1 else 0) + |Opening(files[1..])|
  {
    var later := Opening(files[1..]);
    assert ([files[0].content] + later)[1..] == later && [] + later == later;
    assert [] + Repeated(later, n) == Repeated(later, n);
  }

  /** Count `c` asks for c + 1 passes over every file that opens; a count below -1 asks for none. */
  lemma {:induction false} EveryFileIsRepeated(files: seq<FileSource>, retransmitCount: int)
    requires retransmitCount != -1
    ensures Playlist(files, retransmitCount)
         == Repeated(Opening(files), if retransmitCount >= 0 then retransmitCount + 1 else 0)
  {
    if files != [] {
      EveryFileIsRepeated(files[1..], retransmitCount);
      OpeningStep(files, if retransmitCount >= 0 then retransmitCount + 1 else 0);
    }
  }

  lemma {:induction false} PassesAreCounted(blockSize: nat, files: seq<FileSource>, retransmitCount: int)
    ensures |AllPasses(blockSize, files, retransmitCount)| == |Playlist(files, retransmitCount)|
  {
    if files != [] {
      PassesAreCounted(blockSize, files[1..], retransmitCount);
    }
  }

  /** A failed seek ends the list with an error. */
  lemma SeekFailureEndsList(blockSize: nat, files: seq<FileSource>, retransmitCount: int, i: nat)
    requires i < |SendFiles(blockSize, files, retransmitCount).log|
    requires SendFiles(blockSize, files, retransmitCount).log[i].SeekFailed?
    ensures i == |SendFiles(blockSize, files, retransmitCount).log| - 1
    ensures SendFiles(blockSize, files, retransmitCount).status == TxError
  {
    PassesInOrder(blockSize, files, retransmitCount);
  }

  /** If the first seek fails, nothing is sent of this file, and nothing of those behind it. */
  lemma FirstSeekFails(blockSize: nat, f: FileSource, later: seq<FileSource>, retransmitCount: int)
    requires f.opens && f.attempts != [] && !f.attempts[0].seekable && retransmitCount >= -1
    ensures SendFiles(blockSize, [f] + later, retransmitCount) == Sent([SeekFailed], TxError)
  {
    assert ([f] + later)[0] == f;
    assert SendFile(blockSize, f, 0, Times(f, retransmitCount)).log == [SeekFailed];
  }

  /** A pass sends a prefix of the content, and all of it if it ends normally. */
  ghost predicate Sends(p: PassResult, content: seq<byte>) {
    p.Ran? ==> Concat(p.blocks) <= content && (p.reported == TxNormal ==> Concat(p.blocks) == content)
  }

  lemma PassSends(blockSize: nat, f: FileSource, k: nat)
    requires blockSize > 0
    ensures Sends(Pass(blockSize, f, k), f.content)
  {
    var a := NthAttempt(f, k);
    DataIsPrefixOfInput(blockSize, a.events, f.content);
    if FinalStatus(TxLoop(blockSize, a.events, Start(f.content)), a.lateStop) == TxNormal {
      NormalStatusMeansAllSent(blockSize, a.events, f.content, a.lateStop);
    }
  }

  ghost predicate AllSend(passes: seq<PassResult>, contents: seq<seq<byte>>) {
    |passes| == |contents| && forall i :: 0 <= i < |passes| ==> Sends(passes[i], contents[i])
  }

  lemma AllSendAppend(a: seq<PassResult>, x: seq<seq<byte>>, b: seq<PassResult>, y: seq<seq<byte>>)
    requires AllSend(a, x) && AllSend(b, y)
    ensures AllSend(a + b, x + y)
  {
  }

  lemma {:induction false} AllPassesFollow(blockSize: nat, files: seq<FileSource>, retransmitCount: int)
    requires blockSize > 0
    ensures AllSend(AllPasses(blockSize, files, retransmitCount), Playlist(files, retransmitCount))
  {
    if files != [] {
      var f, n := files[0], Times(files[0], retransmitCount);
      var later, rest := AllPasses(blockSize, files[1..], retransmitCount), Playlist(files[1..], retransmitCount);
      AllPassesFollow(blockSize, files[1..], retransmitCount);
      if f.opens {
        forall i | 0 <= i < n ensures Sends(Passes(blockSize, f, 0, n)[i], f.content) {
          PassSends(blockSize, f, 0 + i);
        }
        AllSendAppend(Passes(blockSize, f, 0, n), Fill(n, f.content), later, rest);
      } else {
        AllSendAppend([], [], later, rest);
      }
    }
  }

  /** Pass i over the list sends entry i of the playlist. */
  lemma PassesFollowPlaylist(blockSize: nat, files: seq<FileSource>, retransmitCount: int)
    requires blockSize > 0 && (retransmitCount == -1 ==> FirstEnds(blockSize, files))
    ensures var log, playlist := SendFiles(blockSize, files, retransmitCount).log, Playlist(files, retransmitCount);
            |log| <= |playlist| && AllSend(log, playlist[..|log|])
  {
    AllPassesFollow(blockSize, files, retransmitCount);
    PassesInOrder(blockSize, files, retransmitCount);
  }

  // ---------- The loop over the files ----------

  /** The blocks of the passes that sent something. */
  function Runs(log: seq<PassResult>): seq<seq<seq<byte>>> {
    if log == [] then [] else (if log[0].Ran? then [log[0].blocks] else []) + Runs(log[1..])
  }

  lemma {:induction false} RunsAppend(a: seq<PassResult>, b: seq<PassResult>)
    ensures Runs(a + b) == Runs(a) + Runs(b)
  {
    if a == [] {
      assert a + b == b;
    } else {
      assert (a + b)[1..] == a[1..] + b;
      RunsAppend(a[1..], b);
    }
  }

  ghost predicate AreTransmissions(ts: seq<seq<Frame>>, runs: seq<seq<seq<byte>>>, copies: nat, numbered: bool) {
    |ts| == |runs| && forall i :: 0 <= i < |ts| ==> IsTransmission(ts[i], runs[i], copies, numbered)
  }

  /** The transmissions in `ts` are those of the passes, with the framing of `tx`. */
  ghost predicate Realizes(tx: DxwifiTransmitter, ts: seq<seq<Frame>>, log: seq<PassResult>)
    reads tx.preinjection
  {
    AreTransmissions(ts, Runs(log), Copies(tx.redundantCtrlFrames), tx.Numbered())
  }

  lemma Collect(tx: DxwifiTransmitter, before: seq<Frame>, ts: seq<seq<Frame>>, more: seq<seq<Frame>>, a: Sent, b: Sent)
    requires a.status == TxNormal && Realizes(tx, ts, a.log) && Realizes(tx, more, b.log)
    ensures Realizes(tx, ts + more, Then(a, b).log)
    ensures (before + Concat(ts)) + Concat(more) == before + Concat(ts + more)
  {
    RunsAppend(a.log, b.log);
    ConcatAppend(ts, more);
    Associative(before, Concat(ts), Concat(more));
  }

  lemma ThenAssociates(a: Sent, b: Sent, c: Sent)
    requires a.status == TxNormal
    ensures Then(a, Then(b, c)) == Then(Then(a, b), c)
  {
    Associative(a.log, b.log, c.log);
  }

  lemma ThenNothing(a: Sent)
    ensures Then(a, NOTHING) == a
  {
    assert a.log + [] == a.log;
  }

  method SeekAndTransmit(tx: DxwifiTransmitter, f: FileSource, k: nat)
    returns (state: TxStatus, ghost ts: seq<seq<Frame>>)
    requires tx.Valid()
    modifies tx`sent, tx`activated
    ensures state == Pass(tx.blockSize, f, k).Status() && Realizes(tx, ts, [Pass(tx.blockSize, f, k)])
    ensures tx.sent == old(tx.sent) + Concat(ts)
  {
    var a := NthAttempt(f, k);
    ts := [];
    assert [Pass(tx.blockSize, f, k)][1..] == [];
    if a.seekable {
      var stats;
      ghost var p, frames;
      stats, p, frames := tx.StartTransmission(f.content, a.events, a.lateStop);
      state := stats.status;
      ts := [frames];
      assert Concat(ts) == frames + [];
    } else {
      state := TxError;
    }
  }

  /** One more pass after those in `done`. */
  method TransmitOnce(tx: DxwifiTransmitter, f: FileSource, k: nat, ghost before: seq<Frame>,
                      ghost ts: seq<seq<Frame>>, ghost done: Sent)
    returns (state: TxStatus, ghost allTs: seq<seq<Frame>>, ghost all: Sent)
    requires tx.Valid() && done.status == TxNormal
    requires tx.sent == before + Concat(ts) && Realizes(tx, ts, done.log)
    modifies tx`sent, tx`activated
    ensures all == Then(done, Made(Pass(tx.blockSize, f, k))) && state == all.status
    ensures tx.sent == before + Concat(allTs) && Realizes(tx, allTs, all.log)
  {
    ghost var more;
    state, more := SeekAndTransmit(tx, f, k);
    Collect(tx, before, ts, more, done, Made(Pass(tx.blockSize, f, k)));
    allTs, all := ts + more, Then(done, Made(Pass(tx.blockSize, f, k)));
  }

  /** What is left to send after the passes in `done`. */
  ghost predicate Remains(goal: Sent, done: Sent, blockSize: nat, f: FileSource, k: nat, left: nat) {
    goal == Then(done, SendFile(blockSize, f, k, left))
  }

  lemma NextPass(goal: Sent, done: Sent, blockSize: nat, f: FileSource, k: nat, left: nat)
    requires Remains(goal, done, blockSize, f, k, left)
    ensures done.status != TxNormal || left == 0 ==> goal == done
    ensures done.status == TxNormal && left > 0 ==>
              Remains(goal, Then(done, Made(Pass(blockSize, f, k))), blockSize, f, k + 1, left - 1)
  {
    ThenNothing(done);
    if done.status == TxNormal && left > 0 {
      ThenAssociates(done, Made(Pass(blockSize, f, k)), SendFile(blockSize, f, k + 1, left - 1));
    }
  }

  /** The retransmit loop of a file that is sent at most `times` times. */
  method Retransmit(tx: DxwifiTransmitter, f: FileSource, retransmitCount: int, ghost times: nat)
    returns (state: TxStatus, ghost ts: seq<seq<Frame>>)
    requires tx.Valid()
    requires retransmitCount != -1 ==> times == if retransmitCount < 0 then 0 else retransmitCount + 1
    requires retransmitCount == -1 ==> SendFile(tx.blockSize, f, 0, times).status != TxNormal
    modifies tx`sent, tx`activated
    ensures state == SendFile(tx.blockSize, f, 0, times).status
    ensures tx.sent == old(tx.sent) + Concat(ts) && Realizes(tx, ts, SendFile(tx.blockSize, f, 0, times).log)
  {
    ghost var done, left, goal := NOTHING, times, SendFile(tx.blockSize, f, 0, times);
    var transmitForever := retransmitCount == -1;
    var count, k := retransmitCount, 0;
    state, ts := TxNormal, [];
    while (count >= 0 || transmitForever) && state == TxNormal
      invariant k + left == times && done.status == state && (!transmitForever ==> count == retransmitCount - k)
      invariant tx.sent == old(tx.sent) + Concat(ts) && Realizes(tx, ts, done.log)
      invariant Remains(goal, done, tx.blockSize, f, k, left)
      decreases left
    {
      NextPass(goal, done, tx.blockSize, f, k, left);
      state, ts, done := TransmitOnce(tx, f, k, old(tx.sent), ts, done);
      count, k, left := count - 1, k + 1, left - 1;
    }
    NextPass(goal, done, tx.blockSize, f, k, left);
  }

  method TransmitFile(tx: DxwifiTransmitter, f: FileSource, retransmitCount: int)
    returns (state: TxStatus, ghost ts: seq<seq<Frame>>)
    requires tx.Valid() && (retransmitCount == -1 ==> Ends(tx.blockSize, f))
    modifies tx`sent, tx`activated
    ensures state == SendFile(tx.blockSize, f, 0, Times(f, retransmitCount)).status
    ensures tx.sent == old(tx.sent) + Concat(ts)
    ensures Realizes(tx, ts, SendFile(tx.blockSize, f, 0, Times(f, retransmitCount)).log)
  {
    if retransmitCount == -1 {
      EndedRun(tx.blockSize, f);
    }
    state, ts := Retransmit(tx, f, retransmitCount, Times(f, retransmitCount));
  }

  /** Opens every file in turn; the first state other than normal ends the list. */
  method TransmitFiles(tx: DxwifiTransmitter, files: seq<FileSource>, retransmitCount: int)
    returns (state: TxStatus, ghost ts: seq<seq<Frame>>)
    requires tx.Valid()
    requires retransmitCount == -1 ==> FirstEnds(tx.blockSize, files)
    modifies tx`sent, tx`activated
    ensures state == SendFiles(tx.blockSize, files, retransmitCount).status
    ensures tx.sent == old(tx.sent) + Concat(ts)
    ensures Realizes(tx, ts, SendFiles(tx.blockSize, files, retransmitCount).log)
  {
    ghost var done := NOTHING;
    var i := 0;
    state, ts := TxNormal, [];
    while i < |files| && state == TxNormal
      invariant 0 <= i <= |files| && done.status == state
      invariant tx.sent == old(tx.sent) + Concat(ts) && Realizes(tx, ts, done.log)
      invariant retransmitCount == -1 && state == TxNormal ==> FirstEnds(tx.blockSize, files[i..])
      invariant SendFiles(tx.blockSize, files, retransmitCount)
             == Then(done, SendFiles(tx.blockSize, files[i..], retransmitCount))
    {
      ghost var rest := files[i..];
      assert rest[1..] == files[i + 1..];
      if files[i].opens {
        ghost var more;
        ghost var sent := SendFile(tx.blockSize, files[i], 0, Times(files[i], retransmitCount));
        ThenAssociates(done, sent, SendFiles(tx.blockSize, files[i + 1..], retransmitCount));
        if retransmitCount == -1 {
          EndedRun(tx.blockSize, files[i]);
        }
        state, more := TransmitFile(tx, files[i], retransmitCount);
        Collect(tx, old(tx.sent), ts, more, done, sent);
        ts, done := ts + more, Then(done, sent);
      }
      i := i + 1;
    }
    ThenNothing(done);
  }
}
