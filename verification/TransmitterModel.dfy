/** One transmission of libdxwifi/transmitter.c as functions on values. */
module TransmitterModel {
  import opened Machine
  import opened Sequences
  import opened Wire

  const HANDLER_MAX: nat := 8
  const PAYLOAD_MAX: nat := MTU - TX_HEADER_LEN - FCS_LEN

  datatype TxStatus = TxNormal | TxTimedOut | TxDeactivated | TxError

  datatype TxStats = TxStats(
    frameCount: uint32, totalBytesRead: uint32, totalBytesSent: uint32,
    prevBytesRead: uint32, prevBytesSent: uint32, status: TxStatus)

  const TX_INIT: TxStats := TxStats(0, 0, 0, 0, 0, TxNormal)

  // ---------- The reading loop ----------

  /**
   What one turn of the loop meets. A ready input delivers at most `limit` bytes, but at least one
   unless it has come to its end. `stop` says that a stop request arrived during the turn. When the
   schedule has run out, every turn finds the input ready and gets full reads.
   */
  datatype TxEvent = TxTimeout | TxPollError(stop: bool) | TxReady(limit: nat, stop: bool)

  datatype TxProgress = TxProgress(
    blocks: seq<seq<byte>>, unread: seq<byte>, prevRead: nat, status: TxStatus, activated: bool)

  function ReadSize(blockSize: nat, limit: nat, unread: seq<byte>): (n: nat)
    ensures n <= blockSize && n <= |unread|
    ensures n == 0 <==> blockSize == 0 || unread == []
  {
    var allowed := if limit == 0 then 1 else limit;
    var wanted := if allowed < blockSize then allowed else blockSize;
    if wanted < |unread| then wanted else |unread|
  }

  function TxTurn(blockSize: nat, e: TxEvent, p: TxProgress): TxProgress {
    match e
    case TxTimeout => p.(status := TxTimedOut, activated := false)
    case TxPollError(stop) => p.(status := if stop then TxDeactivated else TxError, activated := !stop)
    case TxReady(limit, stop) =>
      var n := ReadSize(blockSize, limit, p.unread);
      TxProgress(if n > 0 then p.blocks + [p.unread[..n]] else p.blocks, p.unread[n..], n, p.status, !stop)
  }

  function NextEvent(blockSize: nat, events: seq<TxEvent>): TxEvent {
    if events == [] then TxReady(blockSize, false) else events[0]
  }

  function LaterEvents(events: seq<TxEvent>): seq<TxEvent> {
    if events == [] then [] else events[1..]
  }

  predicate GoesOn(p: TxProgress) {
    p.activated && p.prevRead > 0
  }

  function TxLoop(blockSize: nat, events: seq<TxEvent>, p: TxProgress): TxProgress
    decreases |events|, |p.unread|
  {
    var q := TxTurn(blockSize, NextEvent(blockSize, events), p);
    if GoesOn(q) then TxLoop(blockSize, LaterEvents(events), q) else q
  }

  function Start(input: seq<byte>): TxProgress {
    TxProgress([], input, 0, TxNormal, true)
  }

  /** The status reported at the end; `stop` says that a stop request arrived after the loop. */
  function FinalStatus(p: TxProgress, stop: bool): TxStatus {
    if p.status == TxNormal && (!p.activated || stop) then TxDeactivated else p.status
  }

  // ---------- Frame handlers ----------

  type FrameBuffer = b: seq<byte> | |b| == MTU witness Fill(MTU, 0)

  type Callback = (FrameBuffer, nat, TxStats) -> (FrameBuffer, nat)

  datatype Handler = NoHandler | Handler(callback: Callback)

  function Invoke(pipeline: seq<Handler>, buffer: FrameBuffer, size: nat, stats: TxStats): (FrameBuffer, nat)
    decreases pipeline
  {
    if pipeline == [] then (buffer, size)
    else if pipeline[0].NoHandler? then Invoke(pipeline[1..], buffer, size, stats)
    else
      var r := pipeline[0].callback(buffer, size, stats);
      Invoke(pipeline[1..], r.0, r.1, stats)
  }

  /** The number field of the frame that the buffer holds. */
  function NumberField(buffer: FrameBuffer): seq<byte> {
    buffer[RADIOTAP_TX_LEN + 6..RADIOTAP_TX_LEN + 10]
  }

  /** Same radiotap length and same payload area. */
  ghost predicate SameContent(a: FrameBuffer, b: FrameBuffer) {
    a[2..4] == b[2..4] && a[TX_HEADER_LEN..] == b[TX_HEADER_LEN..]
  }

  /** The callback leaves the payload, its size and the frame's layout alone. */
  ghost predicate KeepsPayload(h: Handler) {
    h.Handler? ==> forall b, n, st :: h.callback(b, n, st).1 == n && SameContent(h.callback(b, n, st).0, b)
  }

  /** The headers agree everywhere but in the number field. */
  predicate SameFields(a: seq<byte>, b: seq<byte>) {
    && |a| >= TX_HEADER_LEN && |b| >= TX_HEADER_LEN
    && a[..18] == b[..18] && a[22..TX_HEADER_LEN] == b[22..TX_HEADER_LEN]
  }

  /** The callback leaves all of the header alone but the number field. */
  ghost predicate KeepsFields(h: Handler) {
    h.Handler? ==> forall b: FrameBuffer, n, st :: SameFields(h.callback(b, n, st).0, b)
  }

  ghost predicate AllKeepFields(pipeline: seq<Handler>) {
    pipeline != [] ==> KeepsFields(pipeline[0]) && AllKeepFields(pipeline[1..])
  }

  ghost predicate KeepsNumber(h: Handler) {
    h.Handler? ==> forall b, n, st :: NumberField(h.callback(b, n, st).0) == NumberField(b)
  }

  ghost predicate Stamps(h: Handler) {
    h.Handler? && forall b, n, st :: NumberField(h.callback(b, n, st).0) == ToBigEndian32(st.frameCount)
  }

  ghost predicate AllKeepPayload(pipeline: seq<Handler>) {
    pipeline != [] ==> KeepsPayload(pipeline[0]) && AllKeepPayload(pipeline[1..])
  }

  ghost predicate AllKeepNumber(pipeline: seq<Handler>) {
    pipeline != [] ==> KeepsNumber(pipeline[0]) && AllKeepNumber(pipeline[1..])
  }

  /** Some handler stamps the frame count and none after it changes the field. */
  ghost predicate Numbering(pipeline: seq<Handler>) {
    pipeline != [] && (Numbering(pipeline[1..]) || (Stamps(pipeline[0]) && AllKeepNumber(pipeline[1..])))
  }

  lemma {:induction false} InvokeKeepsPayload(pipeline: seq<Handler>, buffer: FrameBuffer, size: nat, stats: TxStats)
    requires AllKeepPayload(pipeline)
    ensures var r := Invoke(pipeline, buffer, size, stats);
            r.1 == size && SameContent(r.0, buffer)
    decreases pipeline
  {
    if pipeline != [] {
      if pipeline[0].NoHandler? {
        InvokeKeepsPayload(pipeline[1..], buffer, size, stats);
      } else {
        var r := pipeline[0].callback(buffer, size, stats);
        InvokeKeepsPayload(pipeline[1..], r.0, r.1, stats);
      }
    }
  }

  lemma {:induction false} InvokeKeepsFields(pipeline: seq<Handler>, buffer: FrameBuffer, size: nat, stats: TxStats)
    requires AllKeepFields(pipeline)
    ensures SameFields(Invoke(pipeline, buffer, size, stats).0, buffer)
    decreases pipeline
  {
    if pipeline != [] {
      if pipeline[0].NoHandler? {
        InvokeKeepsFields(pipeline[1..], buffer, size, stats);
      } else {
        var r := pipeline[0].callback(buffer, size, stats);
        InvokeKeepsFields(pipeline[1..], r.0, r.1, stats);
      }
    }
  }

  lemma {:induction false} InvokeKeepsNumber(pipeline: seq<Handler>, buffer: FrameBuffer, size: nat, stats: TxStats)
    requires AllKeepNumber(pipeline)
    ensures NumberField(Invoke(pipeline, buffer, size, stats).0) == NumberField(buffer)
    decreases pipeline
  {
    if pipeline != [] {
      if pipeline[0].NoHandler? {
        InvokeKeepsNumber(pipeline[1..], buffer, size, stats);
      } else {
        var r := pipeline[0].callback(buffer, size, stats);
        InvokeKeepsNumber(pipeline[1..], r.0, r.1, stats);
      }
    }
  }

  lemma {:induction false} InvokeStamps(pipeline: seq<Handler>, buffer: FrameBuffer, size: nat, stats: TxStats)
    requires Numbering(pipeline)
    ensures NumberField(Invoke(pipeline, buffer, size, stats).0) == ToBigEndian32(stats.frameCount)
    decreases pipeline
  {
    var r := if pipeline[0].NoHandler? then (buffer, size) else pipeline[0].callback(buffer, size, stats);
    if Numbering(pipeline[1..]) {
      InvokeStamps(pipeline[1..], r.0, r.1, stats);
    } else {
      InvokeKeepsNumber(pipeline[1..], r.0, r.1, stats);
    }
  }

  lemma {:induction false} EmptySlotsKeep(pipeline: seq<Handler>)
    requires forall i :: 0 <= i < |pipeline| ==> pipeline[i].NoHandler?
    ensures AllKeepPayload(pipeline) && AllKeepNumber(pipeline) && AllKeepFields(pipeline)
  {
    if pipeline != [] {
      EmptySlotsKeep(pipeline[1..]);
    }
  }

  // The handlers of dxwifi/tx/tx.c.

  function AttachFrameNumber(buffer: FrameBuffer, size: nat, stats: TxStats): (FrameBuffer, nat) {
    (buffer[..RADIOTAP_TX_LEN + 6] + ToBigEndian32(stats.frameCount) + buffer[RADIOTAP_TX_LEN + 10..], size)
  }

  function DelayTransmission(buffer: FrameBuffer, size: nat, stats: TxStats): (FrameBuffer, nat) {
    (buffer, size)
  }

  /** The buffers agree everywhere but in the number field. */
  predicate OnlyNumberDiffers(a: FrameBuffer, b: FrameBuffer) {
    a[..RADIOTAP_TX_LEN + 6] == b[..RADIOTAP_TX_LEN + 6] && a[RADIOTAP_TX_LEN + 10..] == b[RADIOTAP_TX_LEN + 10..]
  }

  lemma ProgramHandlers()
    ensures KeepsPayload(Handler(AttachFrameNumber)) && Stamps(Handler(AttachFrameNumber))
    ensures KeepsPayload(Handler(DelayTransmission)) && KeepsNumber(Handler(DelayTransmission))
    ensures KeepsFields(Handler(AttachFrameNumber)) && KeepsFields(Handler(DelayTransmission))
    ensures forall b: FrameBuffer, n: nat, st: TxStats :: OnlyNumberDiffers(AttachFrameNumber(b, n, st).0, b)
    ensures forall b: FrameBuffer, n: nat, st: TxStats :: DelayTransmission(b, n, st) == (b, n)
  {
    forall b: FrameBuffer, n: nat, st: TxStats
      ensures SameContent(AttachFrameNumber(b, n, st).0, b)
      ensures NumberField(AttachFrameNumber(b, n, st).0) == ToBigEndian32(st.frameCount)
      ensures SameFields(AttachFrameNumber(b, n, st).0, b)
    {
      var r := AttachFrameNumber(b, n, st).0;
      assert r[2..4] == b[2..4];
      assert r[TX_HEADER_LEN..] == b[TX_HEADER_LEN..];
    }
  }

  // ---------- What goes on the air ----------

  datatype HeaderFields = HeaderFields(
    rtapFlags: byte, rtapRateMbps: byte, rtapTxFlags: (byte, byte), frameControl: (byte, byte), address: seq<byte>)

  predicate ValidFields(h: HeaderFields) {
    |h.address| == 6
  }

  /** Radiotap header (flags, rate and transmission flags present) and MAC header. */
  function HeaderBytes(h: HeaderFields): (r: seq<byte>)
    requires ValidFields(h)
    ensures |r| == TX_HEADER_LEN && r[2..4] == [12, 0]
  {
    var rate := (2 * (h.rtapRateMbps as int) % 0x100) as byte;
    [0, 0, 12, 0, 0x06, 0x80, 0, 0, h.rtapFlags, rate, h.rtapTxFlags.0, h.rtapTxFlags.1]
    + [h.frameControl.0, h.frameControl.1, 0xff, 0xff]
    + [0xff, 0xff, 0xff, 0xff, 0xff, 0xff] + h.address + [0xff, 0xff, 0xff, 0xff, 0xff, 0xff] + [0, 0]
  }

  function ReadHeader(b: seq<byte>): HeaderFields
    requires |b| == TX_HEADER_LEN
  {
    HeaderFields(b[8], b[9] / 2, (b[10], b[11]), (b[12], b[13]), b[22..28])
  }

  /**
   All fields can be read back from the header, the rate, which is sent in units of 500 kbit/s, if it
   is below 128 Mbit/s and only then. Version, pad and sequence control are zero, the length is twelve, the
   duration is 0xffff, and receiver and network address are broadcast.
   */
  lemma HeaderReadsBack(h: HeaderFields)
    requires ValidFields(h)
    ensures var b := HeaderBytes(h);
            && b[..2] == [0, 0] && b[2..4] == [12, 0] && b[14..16] == [0xff, 0xff] && b[34..] == [0, 0]
            && (ReadHeader(b) == h <==> h.rtapRateMbps < 128)
            && ReadHeader(b).(rtapRateMbps := h.rtapRateMbps) == h
            && b[16..22] == b[28..34] == Fill(6, 0xff)
            && b[4] as int + 0x100 * b[5] as int == 0x02 + 0x04 + 0x8000 && b[6..8] == [0, 0]
  {
  }

  /** A frame as the transmitter sends it: twelve bytes of radiotap and the given payload. */
  ghost predicate Carries(f: Frame, payload: seq<byte>) {
    ItLen(f) == RADIOTAP_TX_LEN && Payload(f) == payload && |f| == TX_HEADER_LEN + |payload| + FCS_LEN
  }

  ghost predicate AreControl(frames: seq<Frame>, value: byte) {
    forall i :: 0 <= i < |frames| ==> Carries(frames[i], Fill(CONTROL_DATA_LEN, value))
  }

  /** Data frames with the given payloads, numbered from `first` on when `numbered`. */
  ghost predicate AreData(frames: seq<Frame>, blocks: seq<seq<byte>>, first: nat, numbered: bool) {
    && |frames| == |blocks|
    && (forall i :: 0 <= i < |frames| ==> Carries(frames[i], blocks[i]))
    && (numbered ==> forall i :: 0 <= i < |frames| ==> FrameNumber(frames[i]) == U32(first + i))
  }

  /** The radiotap and MAC header of a sent frame. */
  function Head(f: seq<byte>): seq<byte> {
    if |f| < TX_HEADER_LEN then f else f[..TX_HEADER_LEN]
  }

  lemma HeadFields(a: seq<byte>, b: seq<byte>)
    requires SameFields(a, b)
    ensures SameFields(Head(a), Head(b)) && SameFields(a, Head(b))
    ensures a[18..22] == b[18..22] ==> Head(a) == Head(b)
  {
    assert Head(a)[..18] == a[..18] && Head(a)[22..36] == a[22..36];
    assert Head(b)[..18] == b[..18] && Head(b)[22..36] == b[22..36];
    assert Head(a) == a[..18] + a[18..22] + a[22..36] && Head(b) == b[..18] + b[18..22] + b[22..36];
  }

  lemma HeadedAppend(a: seq<Frame>, b: seq<Frame>, first: seq<byte>, middle: seq<byte>, last: seq<byte>, fixed: bool)
    requires |first| == TX_HEADER_LEN && Headed(a, first, middle, fixed) && Headed(b, middle, last, fixed)
    ensures Headed(a + b, first, last, fixed)
  {
    if a != [] {
      HeadFields(a[|a| - 1], first);
    }
    forall i | 0 <= i < |b| ensures SameFields(b[i], first) && (fixed ==> Head(b[i]) == first) {
      assert middle[..18] == first[..18];
    }
  }

  /**
   Data frames that start from header `first`: they differ from it at most in the number field, and not
   at all when `fixed`; the last of them leaves header `last` behind.
   */
  ghost predicate Headed(frames: seq<Frame>, first: seq<byte>, last: seq<byte>, fixed: bool) {
    && (forall i :: 0 <= i < |frames| ==> SameFields(frames[i], first) && (fixed ==> Head(frames[i]) == first))
    && last == if frames == [] then first else Head(frames[|frames| - 1])
  }

  /**
   The headers of a transmission: the configured one, in data frames possibly with another number, and in
   the frames behind them with the number of the last data frame.
   */
  ghost predicate HeadersSent(frames: seq<Frame>, h: HeaderFields, copies: nat, n: nat, fixed: bool)
    requires ValidFields(h) && |frames| == copies + n + copies
  {
    && (forall i :: 0 <= i < copies ==> Head(frames[i]) == HeaderBytes(h))
    && (forall i :: copies <= i < copies + n ==>
          SameFields(frames[i], HeaderBytes(h)) && (fixed ==> Head(frames[i]) == HeaderBytes(h)))
    && (forall i :: copies + n <= i < |frames| ==>
          Head(frames[i]) == if n == 0 then HeaderBytes(h) else Head(frames[copies + n - 1]))
  }

  function Copies(redundantCtrlFrames: int): nat {
    if redundantCtrlFrames < 0 then 0 else redundantCtrlFrames + 1
  }

  /** Preambles, the blocks in order, and end-of-transmission frames. */
  ghost predicate IsTransmission(frames: seq<Frame>, blocks: seq<seq<byte>>, copies: nat, numbered: bool) {
    && |frames| == copies + |blocks| + copies
    && AreControl(frames[..copies], PREAMBLE_BYTE)
    && AreData(frames[copies..copies + |blocks|], blocks, 0, numbered)
    && AreControl(frames[copies + |blocks|..], EOT_BYTE)
  }
}
