/**
 The transmitter of libdxwifi/transmitter.c: one frame buffer that is filled, handed to the
 handlers and injected, again and again.
 */
module Transmitter {
  import opened Machine
  import opened Sequences
  import opened Wire
  import opened TransmitterModel

  /** The buffer holds a header with a twelve-byte radiotap part. */
  ghost predicate HasHeader(buffer: seq<byte>) {
    |buffer| == MTU && buffer[2..4] == [12, 0]
  }

  /** The bytes that injecting `n` payload bytes sends, whatever sits in the last four. */
  function Cut(buffer: FrameBuffer, n: nat): seq<byte>
    requires n <= PAYLOAD_MAX
  {
    buffer[..TX_HEADER_LEN + n + FCS_LEN]
  }

  /** The buffer with a block in the payload area. */
  function Filled(buffer: FrameBuffer, block: seq<byte>): FrameBuffer
    requires |block| <= PAYLOAD_MAX
  {
    buffer[..TX_HEADER_LEN] + block + buffer[TX_HEADER_LEN + |block|..]
  }

  /** What the handlers before the injection make of it. */
  function Prepared(pipeline: seq<Handler>, buffer: FrameBuffer, block: seq<byte>, stats: TxStats): FrameBuffer
    requires |block| <= PAYLOAD_MAX
  {
    Invoke(pipeline, Filled(buffer, block), |block|, stats.(prevBytesRead := |block|)).0
  }

  lemma CutIsFrame(buffer: FrameBuffer, n: nat)
    requires HasHeader(buffer) && n <= PAYLOAD_MAX
    ensures WellFormed(Cut(buffer, n))
    ensures Carries(Cut(buffer, n), buffer[TX_HEADER_LEN..TX_HEADER_LEN + n])
    ensures FrameNumber(Cut(buffer, n)) == BigEndian32(NumberField(buffer))
  {
    var f := Cut(buffer, n);
    assert f[2] == buffer[2..4][0] && f[3] == buffer[2..4][1];
    assert ItLen(f) == RADIOTAP_TX_LEN;
    assert Payload(f) == buffer[TX_HEADER_LEN..TX_HEADER_LEN + n];
    assert f[RADIOTAP_TX_LEN + 6..RADIOTAP_TX_LEN + 10] == NumberField(buffer);
  }

  function TotalSize(blocks: seq<seq<byte>>): nat {
    if blocks == [] then 0 else |blocks[0]| + TotalSize(blocks[1..])
  }

  lemma {:induction false} TotalSizeSnoc(blocks: seq<seq<byte>>, b: seq<byte>)
    ensures TotalSize(blocks + [b]) == TotalSize(blocks) + |b|
  {
    if blocks == [] {
      assert [] + [b] == [b];
    } else {
      assert (blocks + [b])[1..] == blocks[1..] + [b];
      TotalSizeSnoc(blocks[1..], b);
    }
  }

  /** The counters say what has been read and sent: forty bytes of framing for every block. */
  ghost predicate Accounts(stats: TxStats, p: TxProgress) {
    && stats.frameCount == U32(|p.blocks|)
    && stats.totalBytesRead == U32(TotalSize(p.blocks))
    && stats.totalBytesSent == U32(TotalSize(p.blocks) + (TX_HEADER_LEN + FCS_LEN) * |p.blocks|)
    && stats.prevBytesRead == p.prevRead
    && stats.prevBytesSent == (if p.blocks == [] then 0
                               else TX_HEADER_LEN + |p.blocks[|p.blocks| - 1]| + FCS_LEN)
    && stats.status == p.status
  }

  function Record(stats: TxStats, read: uint32, sent: uint32): TxStats {
    TxStats(U32(stats.frameCount + 1), U32(stats.totalBytesRead + read), U32(stats.totalBytesSent + sent),
            read, sent, stats.status)
  }

  lemma RecordAccounts(stats: TxStats, p: TxProgress, blockSize: nat, limit: nat, stop: bool)
    requires Accounts(stats, p) && blockSize <= PAYLOAD_MAX && ReadSize(blockSize, limit, p.unread) > 0
    ensures var n := ReadSize(blockSize, limit, p.unread);
            Accounts(Record(stats, n, TX_HEADER_LEN + n + FCS_LEN), TxTurn(blockSize, TxReady(limit, stop), p))
  {
    var n := ReadSize(blockSize, limit, p.unread);
    var block, count, total := p.unread[..n], |p.blocks|, TotalSize(p.blocks);
    TotalSizeSnoc(p.blocks, block);
    U32Sum(count, 1);
    U32Sum(total, n);
    U32Sum(total + (TX_HEADER_LEN + FCS_LEN) * count, TX_HEADER_LEN + n + FCS_LEN);
  }

  class DxwifiTransmitter {
    const blockSize: nat
    const redundantCtrlFrames: int
    const header: HeaderFields
    const preinjection: array<Handler>
    const postinjection: array<Handler>
    var activated: bool

    /** The frames injected so far. */
    var sent: seq<Frame>

    ghost predicate Valid()
      reads preinjection, postinjection
    {
      && blockSize <= PAYLOAD_MAX && ValidFields(header)
      && preinjection.Length == HANDLER_MAX && postinjection.Length == HANDLER_MAX
      && AllKeepPayload(preinjection[..]) && AllKeepPayload(postinjection[..])
    }

    /** The handlers leave the header alone, except that those before the injection may set the number. */
    ghost predicate KeepsHeader()
      reads preinjection, postinjection
    {
      AllKeepFields(preinjection[..]) && AllKeepFields(postinjection[..]) && AllKeepNumber(postinjection[..])
    }

    /** The handlers before the injection do not set the number either. */
    ghost predicate Unnumbered()
      reads preinjection
    {
      AllKeepNumber(preinjection[..])
    }

    ghost predicate Numbered()
      reads preinjection
    {
      Numbering(preinjection[..])
    }

    constructor (blockSize: nat, redundantCtrlFrames: int, header: HeaderFields)
      requires blockSize <= PAYLOAD_MAX && ValidFields(header)
      ensures Valid() && fresh(preinjection) && fresh(postinjection) && preinjection != postinjection
      ensures this.blockSize == blockSize && this.redundantCtrlFrames == redundantCtrlFrames
      ensures preinjection[..] == Fill(HANDLER_MAX, NoHandler) && postinjection[..] == Fill(HANDLER_MAX, NoHandler)
      ensures this.header == header && sent == []
    {
      this.blockSize, this.redundantCtrlFrames, this.header := blockSize, redundantCtrlFrames, header;
      preinjection, postinjection := new Handler[HANDLER_MAX](_ => NoHandler), new Handler[HANDLER_MAX](_ => NoHandler);
      activated, sent := false, [];
      new;
      EmptySlotsKeep(preinjection[..]);
      EmptySlotsKeep(postinjection[..]);
    }

    /** Hands the buffer to one handler after the other. */
    method InvokeHandlers(pipeline: array<Handler>, buffer: array<byte>, payloadSize: nat, stats: TxStats)
      returns (size: nat)
      requires buffer.Length == MTU
      modifies buffer
      ensures (buffer[..], size) == Invoke(pipeline[..], old(buffer[..]), payloadSize, stats)
    {
      size := payloadSize;
      var i := 0;
      while i < pipeline.Length
        invariant 0 <= i <= pipeline.Length
        invariant Invoke(pipeline[i..], buffer[..], size, stats)
               == Invoke(pipeline[..], old(buffer[..]), payloadSize, stats)
      {
        assert pipeline[i..][1..] == pipeline[i + 1..];
        if pipeline[i].Handler? {
          var r := pipeline[i].callback(buffer[..], size, stats);
          Overwrite(buffer, r.0);
          size := r.1;
        }
        i := i + 1;
      }
    }

    static method Overwrite(buffer: array<byte>, bytes: seq<byte>)
      requires buffer.Length == |bytes|
      modifies buffer
      ensures buffer[..] == bytes
    {
      forall i | 0 <= i < |bytes| {
        buffer[i] := bytes[i];
      }
    }

    /** Puts bytes into the payload area; what lies behind them stays as it was. */
    static method FillPayload(buffer: array<byte>, bytes: seq<byte>)
      requires HasHeader(buffer[..]) && |bytes| <= PAYLOAD_MAX
      modifies buffer
      ensures HasHeader(buffer[..]) && buffer[..][TX_HEADER_LEN..TX_HEADER_LEN + |bytes|] == bytes
      ensures Head(buffer[..]) == old(Head(buffer[..])) && buffer[..] == Filled(old(buffer[..]), bytes)
    {
      ghost var before := buffer[..];
      forall i | 0 <= i < |bytes| {
        buffer[TX_HEADER_LEN + i] := bytes[i];
      }
      assert buffer[..][2..4] == before[2..4];
      assert buffer[..] == Filled(before, bytes);
    }

    /** Injects the first `payloadSize` payload bytes, together with the header and the checksum slot. */
    method InjectPacket(buffer: array<byte>, payloadSize: nat) returns (status: nat)
      requires HasHeader(buffer[..]) && payloadSize <= PAYLOAD_MAX
      modifies this`sent
      ensures WellFormed(Cut(buffer[..], payloadSize))
      ensures sent == old(sent) + [Cut(buffer[..], payloadSize)]
      ensures status == TX_HEADER_LEN + payloadSize + FCS_LEN
    {
      CutIsFrame(buffer[..], payloadSize);
      var f := Cut(buffer[..], payloadSize);
      sent := sent + [f];
      status := |f|;
    }

    method SendControlFrame(buffer: array<byte>, value: byte) returns (ghost frames: seq<Frame>)
      requires HasHeader(buffer[..])
      modifies this`sent, buffer
      ensures HasHeader(buffer[..]) && sent == old(sent) + frames
      ensures |frames| == Copies(redundantCtrlFrames) && AreControl(frames, value)
      ensures redundantCtrlFrames >= 0 ==> |frames| == redundantCtrlFrames + 1
      ensures Head(buffer[..]) == old(Head(buffer[..]))
      ensures forall i :: 0 <= i < |frames| ==> Head(frames[i]) == old(Head(buffer[..]))
    {
      FillPayload(buffer, Fill(CONTROL_DATA_LEN, value));
      ghost var bytes := buffer[..];
      CutIsFrame(bytes, CONTROL_DATA_LEN);
      frames := [];
      var i := 0;
      while i < redundantCtrlFrames + 1
        invariant 0 <= i && i == |frames| <= Copies(redundantCtrlFrames)
        invariant buffer[..] == bytes && sent == old(sent) + frames && AreControl(frames, value)
        invariant forall j :: 0 <= j < i ==> Head(frames[j]) == Head(bytes)
      {
        var _ := InjectPacket(buffer, CONTROL_DATA_LEN);
        frames := frames + [Cut(buffer[..], CONTROL_DATA_LEN)];
        i := i + 1;
      }
    }

    /** Reads a block into the frame, runs the handlers around the injection, updates the counters. */
    method SendBlock(buffer: array<byte>, block: seq<byte>, stats: TxStats)
      returns (after: TxStats, ghost f: Frame)
      requires Valid() && HasHeader(buffer[..]) && 0 < |block| <= blockSize
      modifies this`sent, buffer
      ensures HasHeader(buffer[..]) && sent == old(sent) + [f] && Carries(f, block)
      ensures Numbered() ==> FrameNumber(f) == stats.frameCount
      ensures KeepsHeader() ==> Headed([f], old(Head(buffer[..])), Head(buffer[..]), Unnumbered())
      ensures after == Record(stats, |block|, TX_HEADER_LEN + |block| + FCS_LEN)
      ensures f == Cut(Prepared(preinjection[..], old(buffer[..]), block, stats), |block|)
      ensures buffer[..] == Invoke(postinjection[..], Prepared(preinjection[..], old(buffer[..]), block, stats),
                                   |block|, after).0
    {
      FillPayload(buffer, block);
      var current := stats.(prevBytesRead := |block|);
      f := Prepare(buffer, block, current);
      var status := InjectPacket(buffer, |block|);
      after := Record(stats, |block|, status);
      InvokeKeepsPayload(postinjection[..], buffer[..], |block|, after);
      HandlersKeepHeader(postinjection[..], buffer[..], |block|, after);
      var _ := InvokeHandlers(postinjection, buffer, after.prevBytesRead, after);
    }

    /** The handlers before the injection; the payload size they report is the block size. */
    method Prepare(buffer: array<byte>, block: seq<byte>, stats: TxStats) returns (ghost f: Frame)
      requires Valid() && HasHeader(buffer[..]) && |block| <= PAYLOAD_MAX && stats.prevBytesRead == |block|
      requires buffer[..][TX_HEADER_LEN..TX_HEADER_LEN + |block|] == block
      modifies buffer
      ensures HasHeader(buffer[..]) && f == Cut(buffer[..], |block|) && Carries(f, block)
      ensures Numbered() ==> FrameNumber(f) == stats.frameCount
      ensures KeepsHeader() ==> Headed([f], old(Head(buffer[..])), Head(buffer[..]), Unnumbered())
      ensures buffer[..] == Invoke(preinjection[..], old(buffer[..]), |block|, stats).0
    {
      ghost var before := buffer[..];
      InvokeKeepsPayload(preinjection[..], before, |block|, stats);
      HandlersKeepHeader(preinjection[..], before, |block|, stats);
      var size := InvokeHandlers(preinjection, buffer, stats.prevBytesRead, stats);
      ghost var now := buffer[..];
      assert now[TX_HEADER_LEN..][..|block|] == before[TX_HEADER_LEN..][..|block|];
      CutIsFrame(now, size);
      f := Cut(now, size);
      if KeepsHeader() {
        CutHead(now, size, Head(before), Unnumbered());
      }
      if Numbered() {
        InvokeStamps(preinjection[..], before, |block|, stats);
        BigEndian32RoundTrip(stats.frameCount);
      }
    }

    /** What a turn does when the input is ready; the turn's outcome is that of `TxTurn`. */
    method ReadAndSend(buffer: array<byte>, limit: nat, unread: seq<byte>, stats: TxStats, ghost p: TxProgress,
                       ghost stop: bool)
      returns (left: seq<byte>, after: TxStats, ghost frames: seq<Frame>)
      requires Valid() && HasHeader(buffer[..]) && Accounts(stats, p) && p.unread == unread
      modifies this`sent, buffer
      ensures HasHeader(buffer[..]) && sent == old(sent) + frames && |frames| <= 1
      ensures Accounts(after, TxTurn(blockSize, TxReady(limit, stop), p))
      ensures var q := TxTurn(blockSize, TxReady(limit, stop), p);
              && left == q.unread
              && q.blocks == p.blocks + (if frames == [] then [] else [Payload(frames[0])])
              && AreData(frames, q.blocks[|p.blocks|..], |p.blocks|, Numbered())
      ensures KeepsHeader() ==> Headed(frames, old(Head(buffer[..])), Head(buffer[..]), Unnumbered())
    {
      var n := ReadSize(blockSize, limit, unread);
      after, frames, left := stats.(prevBytesRead := n), [], unread[n..];
      if n > 0 {
        ghost var f;
        after, f := SendPiece(buffer, limit, n, unread, stats, p, stop);
        frames := [f];
      } else {
        NoBlockMore(stats, p, blockSize, limit, stop);
        assert sent == old(sent) + frames;
      }
    }

    /** The piece that was read goes out as the next block. */
    method SendPiece(buffer: array<byte>, limit: nat, n: nat, unread: seq<byte>, stats: TxStats, ghost p: TxProgress,
                     ghost stop: bool)
      returns (after: TxStats, ghost f: Frame)
      requires Valid() && HasHeader(buffer[..]) && p.unread == unread && 0 < n == ReadSize(blockSize, limit, unread)
      requires Accounts(stats, p)
      modifies this`sent, buffer
      ensures HasHeader(buffer[..]) && sent == old(sent) + [f]
      ensures Accounts(after, TxTurn(blockSize, TxReady(limit, stop), p))
      ensures var q := TxTurn(blockSize, TxReady(limit, stop), p);
              q.blocks == p.blocks + [Payload(f)] && AreData([f], q.blocks[|p.blocks|..], |p.blocks|, Numbered())
      ensures KeepsHeader() ==> Headed([f], old(Head(buffer[..])), Head(buffer[..]), Unnumbered())
    {
      RecordAccounts(stats, p, blockSize, limit, stop);
      after, f := SendBlock(buffer, unread[..n], stats);
      OneBlockMore(p, blockSize, limit, stop, f, Numbered());
    }

    /** One turn of the transmit loop on what is left of the input. */
    method TakeTurn(buffer: array<byte>, e: TxEvent, unread: seq<byte>, stats: TxStats, ghost p: TxProgress)
      returns (left: seq<byte>, after: TxStats, ghost q: TxProgress, ghost frames: seq<Frame>)
      requires Valid() && HasHeader(buffer[..]) && Accounts(stats, p) && p.unread == unread
      requires activated == p.activated
      modifies this`sent, this`activated, buffer
      ensures HasHeader(buffer[..]) && Accounts(after, q) && q.unread == left && activated == q.activated
      ensures q == TxTurn(blockSize, e, p)
      ensures sent == old(sent) + frames && |frames| <= 1
      ensures q.blocks == p.blocks + if frames == [] then [] else [Payload(frames[0])]
      ensures AreData(frames, q.blocks[|p.blocks|..], |p.blocks|, Numbered())
      ensures KeepsHeader() ==> Headed(frames, old(Head(buffer[..])), Head(buffer[..]), Unnumbered())
    {
      left, after, frames, q := unread, stats, [], TxTurn(blockSize, e, p);
      match e
      case TxTimeout =>
        after := after.(status := TxTimedOut);
        activated := false;
      case TxPollError(stop) =>
        activated := !stop;
        after := after.(status := if activated then TxError else TxDeactivated);
      case TxReady(limit, stop) =>
        left, after, frames := ReadAndSend(buffer, limit, unread, stats, p, stop);
        activated := !stop;
    }

    /** One turn, seen from the first frame of the transmission on. */
    method Advance(buffer: array<byte>, e: TxEvent, unread: seq<byte>, stats: TxStats,
                   ghost p: TxProgress, ghost earlier: seq<Frame>, ghost frames: seq<Frame>, ghost first: seq<byte>)
      returns (left: seq<byte>, after: TxStats, ghost q: TxProgress, ghost all: seq<Frame>)
      requires Valid() && HasHeader(buffer[..]) && Accounts(stats, p) && p.unread == unread
      requires activated == p.activated
      requires sent == earlier + frames && AreData(frames, p.blocks, 0, Numbered()) && |first| == TX_HEADER_LEN
      requires KeepsHeader() ==> Headed(frames, first, Head(buffer[..]), Unnumbered())
      modifies this`sent, this`activated, buffer
      ensures HasHeader(buffer[..]) && Accounts(after, q) && q.unread == left && activated == q.activated
      ensures q == TxTurn(blockSize, e, p)
      ensures sent == earlier + all && AreData(all, q.blocks, 0, Numbered())
      ensures KeepsHeader() ==> Headed(all, first, Head(buffer[..]), Unnumbered())
    {
      ghost var more, middle := [], Head(buffer[..]);
      left, after, q, more := TakeTurn(buffer, e, unread, stats, p);
      all := frames + more;
      DataAppend(frames, more, p, q, Numbered());
      Associative(earlier, frames, more);
      if KeepsHeader() {
        HeadedAppend(frames, more, first, middle, Head(buffer[..]), Unnumbered());
      }
    }

    /** The transmit loop proper. */
    method TransmitBlocks(buffer: array<byte>, input: seq<byte>, events: seq<TxEvent>)
      returns (stats: TxStats, ghost p: TxProgress, ghost frames: seq<Frame>)
      requires Valid() && HasHeader(buffer[..])
      modifies this`sent, this`activated, buffer
      ensures HasHeader(buffer[..]) && p == TxLoop(blockSize, events, Start(input)) && activated == p.activated
      ensures Accounts(stats, p) && sent == old(sent) + frames && AreData(frames, p.blocks, 0, Numbered())
      ensures KeepsHeader() ==> Headed(frames, old(Head(buffer[..])), Head(buffer[..]), Unnumbered())
    {
      var unread, schedule, goesOn := input, events, true;
      stats, activated := TX_INIT, true;
      p, frames := Start(input), [];
      while goesOn
        invariant HasHeader(buffer[..]) && Accounts(stats, p) && p.unread == unread && activated == p.activated
        invariant sent == old(sent) + frames && AreData(frames, p.blocks, 0, Numbered())
        invariant KeepsHeader() ==> Headed(frames, old(Head(buffer[..])), Head(buffer[..]), Unnumbered())
        invariant TxLoop(blockSize, events, Start(input)) == if goesOn then TxLoop(blockSize, schedule, p) else p
        decreases |schedule|, |unread|, goesOn
      {
        unread, stats, p, frames :=
          Advance(buffer, NextEvent(blockSize, schedule), unread, stats, p, old(sent), frames, old(Head(buffer[..])));
        schedule := LaterEvents(schedule);
        goesOn := activated && stats.prevBytesRead > 0;
      }
    }

    /** Everything between switching the transmitter on and reporting the status. */
    method SendEverything(input: seq<byte>, events: seq<TxEvent>)
      returns (stats: TxStats, ghost p: TxProgress, ghost frames: seq<Frame>)
      requires Valid()
      modifies this`sent, this`activated
      ensures p == TxLoop(blockSize, events, Start(input)) && activated == p.activated && Accounts(stats, p)
      ensures IsTransmission(frames, p.blocks, Copies(redundantCtrlFrames), Numbered())
      ensures sent == old(sent) + frames
      ensures KeepsHeader() ==>
                HeadersSent(frames, header, Copies(redundantCtrlFrames), |p.blocks|, Unnumbered())
    {
      var buffer := new byte[MTU](_ => 0);
      SetupFrame(buffer);
      activated := true;
      ghost var preambles, data, eots;
      preambles := SendControlFrame(buffer, PREAMBLE_BYTE);
      stats, p, data := TransmitBlocks(buffer, input, events);
      eots := SendControlFrame(buffer, EOT_BYTE);
      frames := preambles + data + eots;
      JoinTransmission(preambles, data, eots, p.blocks, Numbered());
      if KeepsHeader() {
        JoinHeaders(preambles, data, eots, header, Head(buffer[..]), Unnumbered());
      }
      Associative(old(sent), preambles, data);
      Associative(old(sent), preambles + data, eots);
    }

    /** Preambles, data until the input ends or the loop is stopped, end-of-transmission frames. */
    method StartTransmission(input: seq<byte>, events: seq<TxEvent>, lateStop: bool)
      returns (stats: TxStats, ghost p: TxProgress, ghost frames: seq<Frame>)
      requires Valid()
      modifies this`sent, this`activated
      ensures p == TxLoop(blockSize, events, Start(input))
      ensures IsTransmission(frames, p.blocks, Copies(redundantCtrlFrames), Numbered())
      ensures sent == old(sent) + frames
      ensures KeepsHeader() ==>
                HeadersSent(frames, header, Copies(redundantCtrlFrames), |p.blocks|, Unnumbered())
      ensures Accounts(stats.(status := p.status), p) && stats.status == FinalStatus(p, lateStop)
    {
      stats, p, frames := SendEverything(input, events);
      activated := activated && !lateStop;
      if stats.status == TxNormal && !activated {
        stats := stats.(status := TxDeactivated);
      }
    }

    method SetupFrame(buffer: array<byte>)
      requires Valid() && buffer.Length == MTU
      modifies buffer
      ensures HasHeader(buffer[..]) && Head(buffer[..]) == HeaderBytes(header)
    {
      var bytes := HeaderBytes(header);
      assert (bytes + Fill(MTU - TX_HEADER_LEN, 0))[2..4] == bytes[2..4];
      assert (bytes + Fill(MTU - TX_HEADER_LEN, 0))[..TX_HEADER_LEN] == bytes;
      Overwrite(buffer, bytes + Fill(MTU - TX_HEADER_LEN, 0));
    }
  }

  lemma DataAppend(frames: seq<Frame>, more: seq<Frame>, p: TxProgress, q: TxProgress, numbered: bool)
    requires AreData(frames, p.blocks, 0, numbered) && p.blocks <= q.blocks
    requires AreData(more, q.blocks[|p.blocks|..], |p.blocks|, numbered)
    ensures AreData(frames + more, q.blocks, 0, numbered)
  {
    var all, n := frames + more, |p.blocks|;
    assert q.blocks[..n] == p.blocks;
    forall i | 0 <= i < |all|
      ensures Carries(all[i], q.blocks[i]) && (numbered ==> FrameNumber(all[i]) == U32(i))
    {
      if i < n {
        assert all[i] == frames[i] && q.blocks[i] == q.blocks[..n][i];
      } else {
        assert all[i] == more[i - n] && q.blocks[i] == q.blocks[n..][i - n];
        assert n + (i - n) == i;
      }
    }
  }

  /** A turn that reads something has sent a frame with it. */
  lemma OneBlockMore(p: TxProgress, blockSize: nat, limit: nat, stop: bool, f: Frame, numbered: bool)
    requires ReadSize(blockSize, limit, p.unread) > 0
    requires Carries(f, p.unread[..ReadSize(blockSize, limit, p.unread)])
    requires numbered ==> FrameNumber(f) == U32(|p.blocks|)
    ensures var q := TxTurn(blockSize, TxReady(limit, stop), p);
            q.blocks == p.blocks + [Payload(f)] && AreData([f], q.blocks[|p.blocks|..], |p.blocks|, numbered)
  {
    var q := TxTurn(blockSize, TxReady(limit, stop), p);
    assert q.blocks[|p.blocks|..] == [Payload(f)];
  }

  lemma NoBlockMore(stats: TxStats, p: TxProgress, blockSize: nat, limit: nat, stop: bool)
    requires Accounts(stats, p) && ReadSize(blockSize, limit, p.unread) == 0
    ensures var q := TxTurn(blockSize, TxReady(limit, stop), p);
            && Accounts(stats.(prevBytesRead := 0), q) && q.unread == p.unread[0..]
            && q.blocks == p.blocks == p.blocks + [] && q.blocks[|p.blocks|..] == []
  {
  }

  lemma CutHead(buffer: FrameBuffer, n: nat, first: seq<byte>, fixed: bool)
    requires HasHeader(buffer) && n <= PAYLOAD_MAX
    requires SameFields(buffer, first) && (fixed ==> Head(buffer) == first)
    ensures WellFormed(Cut(buffer, n)) && Headed([Cut(buffer, n)], first, Head(buffer), fixed)
  {
    CutIsFrame(buffer, n);
    var f := Cut(buffer, n);
    assert Head(f) == Head(buffer);
    HeadFields(buffer, first);
    assert SameFields(Head(f), first);
    SliceOfSlice(f, 0, TX_HEADER_LEN, 0, 18);
    SliceOfSlice(f, 0, TX_HEADER_LEN, 22, TX_HEADER_LEN);
  }

  /** What handlers that leave the header fields alone make of a header. */
  lemma HandlersKeepHeader(pipeline: seq<Handler>, buffer: FrameBuffer, size: nat, stats: TxStats)
    ensures var r := Invoke(pipeline, buffer, size, stats).0;
            && (AllKeepFields(pipeline) ==> SameFields(r, Head(buffer)))
            && (AllKeepFields(pipeline) && AllKeepNumber(pipeline) ==> Head(r) == Head(buffer))
  {
    if AllKeepFields(pipeline) {
      InvokeKeepsFields(pipeline, buffer, size, stats);
      HeadFields(Invoke(pipeline, buffer, size, stats).0, buffer);
      if AllKeepNumber(pipeline) {
        InvokeKeepsNumber(pipeline, buffer, size, stats);
      }
    }
  }

  lemma JoinHeaders(preambles: seq<Frame>, data: seq<Frame>, eots: seq<Frame>, h: HeaderFields, last: seq<byte>,
                    fixed: bool)
    requires ValidFields(h) && |preambles| == |eots| && Headed(data, HeaderBytes(h), last, fixed)
    requires forall i :: 0 <= i < |preambles| ==> Head(preambles[i]) == HeaderBytes(h)
    requires forall i :: 0 <= i < |eots| ==> Head(eots[i]) == last
    ensures HeadersSent(preambles + data + eots, h, |preambles|, |data|, fixed)
  {
    var all := preambles + data + eots;
    assert forall i :: 0 <= i < |preambles| ==> all[i] == preambles[i];
    assert forall i :: |preambles| <= i < |preambles| + |data| ==> all[i] == data[i - |preambles|];
    assert forall i :: |preambles| + |data| <= i < |all| ==> all[i] == eots[i - |preambles| - |data|];
  }

  lemma JoinTransmission(preambles: seq<Frame>, data: seq<Frame>, eots: seq<Frame>, blocks: seq<seq<byte>>,
                         numbered: bool)
    requires AreControl(preambles, PREAMBLE_BYTE) && AreControl(eots, EOT_BYTE) && |preambles| == |eots|
    requires AreData(data, blocks, 0, numbered)
    ensures IsTransmission(preambles + data + eots, blocks, |preambles|, numbered)
  {
    var all := preambles + data + eots;
    assert all[..|preambles|] == preambles;
    assert all[|preambles|..|preambles| + |blocks|] == data;
    assert all[|preambles| + |blocks|..] == eots;
  }
}
