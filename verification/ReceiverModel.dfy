/** One capture of libdxwifi/receiver.c as functions on values. */
module ReceiverModel {
  import opened Machine
  import opened Sequences
  import opened Wire
  import opened Heap

  const HEAP_CAPACITY: nat := PACKET_BUFFER_MAX / BLOCK_SIZE_MIN + 1

  datatype RxConfig = RxConfig(ordered: bool, addNoise: bool, noiseValue: byte, pbSize: nat)

  /** A buffered payload and the key it is sorted by. */
  datatype Item = Item(number: int, payload: seq<byte>)

  datatype RxStatus = RxNormal | RxTimedOut | RxDeactivated | RxError

  datatype RxStats = RxStats(
    payloadSize: uint32, writeLen: uint32, capLen: uint32, blocksLost: uint32, noiseAdded: uint32,
    packets: uint32, status: RxStatus)

  /** The bytes written so far and the counters of the capture. */
  datatype Sink = Sink(out: seq<byte>, stats: RxStats)

  datatype RxState = RxState(
    sink: Sink, pending: seq<Item>, index: nat, eotReached: bool, preambleRecv: bool, endCapture: bool)
  {
    function Packets(): uint32 { sink.stats.packets }

    function Status(): RxStatus { sink.stats.status }

    function WithStatus(status: RxStatus): RxState {
      this.(sink := sink.(stats := sink.stats.(status := status)))
    }
  }

  const INIT: RxState :=
    RxState(Sink([], RxStats(0, 0, 0, 0, 0, 0, RxNormal)), [], 0, false, false, false)

  predicate ByNumber(a: Item, b: Item) {
    a.number < b.number
  }

  // ---------- Draining ----------

  function Missing(cfg: RxConfig, expected: int, number: int): int {
    if cfg.ordered && expected != number then Int32(number - expected) else 0
  }

  function Noise(sink: Sink, size: nat, v: byte): Sink {
    Sink(sink.out + Fill(size, v), sink.stats.(noiseAdded := U32(sink.stats.noiseAdded + size)))
  }

  function WriteNoise(sink: Sink, count: int, size: nat, v: byte): Sink
    decreases count
  {
    if count <= 0 then sink else WriteNoise(Noise(sink, size, v), count - 1, size, v)
  }

  function Lose(sink: Sink, blocks: int): Sink {
    sink.(stats := sink.stats.(blocksLost := U32(sink.stats.blocksLost + blocks)))
  }

  function WriteBlock(sink: Sink, payload: seq<byte>): Sink {
    Sink(sink.out + payload, sink.stats.(writeLen := U32(sink.stats.writeLen + |payload|)))
  }

  /** Writes one block, preceded by noise for the blocks that are missing before it. */
  function Emit(cfg: RxConfig, expected: int, item: Item, sink: Sink): Sink {
    var missing := Missing(cfg, expected, item.number);
    var noisy := if cfg.addNoise then WriteNoise(sink, missing, |item.payload|, cfg.noiseValue) else sink;
    WriteBlock(Lose(noisy, missing), item.payload)
  }

  function EmitAll(cfg: RxConfig, expected: int, items: seq<Item>, sink: Sink): Sink
    decreases items
  {
    if items == [] then sink
    else EmitAll(cfg, Int32(items[0].number + 1), items[1..], Emit(cfg, expected, items[0], sink))
  }

  /** Emits blocks that are already in order. */
  function EmitWindow(cfg: RxConfig, order: seq<Item>, sink: Sink): Sink {
    if order == [] then sink else EmitAll(cfg, order[0].number, order, sink)
  }

  function Drain(cfg: RxConfig, pending: seq<Item>, sink: Sink): Sink {
    EmitWindow(cfg, HeapOrder(ByNumber, pending), sink)
  }

  function Dump(cfg: RxConfig, s: RxState): RxState {
    s.(sink := Drain(cfg, s.pending, s.sink), pending := [], index := 0)
  }

  // ---------- One frame ----------

  function Control(s: RxState, c: ControlType): RxState {
    match c
    case Preamble => s.(preambleRecv := true, endCapture := s.endCapture || s.Packets() > 0)
    case Eot => s.(eotReached := true)
    case NoControl => s
  }

  function Key(cfg: RxConfig, f: Frame, packets: uint32): int {
    Int32(if cfg.ordered then FrameNumber(f) else packets)
  }

  /** A full heap drops the block. */
  function Append(pending: seq<Item>, item: Item): seq<Item> {
    if |pending| < HEAP_CAPACITY then pending + [item] else pending
  }

  function Count(stats: RxStats, capLen: nat, payloadSize: nat): RxStats {
    stats.(capLen := U32(stats.capLen + capLen),
           payloadSize := U32(stats.payloadSize + payloadSize),
           packets := U32(stats.packets + 1))
  }

  /** Buffer space and counters are spent even on a block that the heap drops. */
  function Store(cfg: RxConfig, s: RxState, f: Frame): RxState {
    s.(pending := Append(s.pending, Item(Key(cfg, f, s.Packets()), Payload(f))),
       index := s.index + |f|,
       sink := s.sink.(stats := Count(s.sink.stats, |f|, |Payload(f)|)))
  }

  function Step(cfg: RxConfig, s: RxState, f: Frame): RxState {
    if Classify(f) != NoControl then Control(s, Classify(f))
    else Store(cfg, if s.index + |f| >= cfg.pbSize then Dump(cfg, s) else s, f)
  }

  function Run(cfg: RxConfig, s: RxState, frames: seq<Frame>): RxState
    decreases frames
  {
    if frames == [] then s else Run(cfg, Step(cfg, s, frames[0]), frames[1..])
  }

  // ---------- One capture ----------

  /**
   What one turn of the capture loop meets. `stop` says that a stop request arrived during the
   turn. A schedule that has run out is the end of a savefile.
   */
  datatype RxEvent = Timeout | PollError(stop: bool) | Dispatch(frames: seq<Frame>, stop: bool)

  /** What one turn makes of the capture. */
  function Turn(cfg: RxConfig, s: RxState, e: RxEvent): RxState {
    match e
    case Timeout => s.WithStatus(RxTimedOut)
    case PollError(stop) => s.WithStatus(if stop then RxDeactivated else RxError)
    case Dispatch(frames, _) => Run(cfg, s, frames)
  }

  predicate StaysActive(e: RxEvent) {
    !e.Timeout? && !e.stop
  }

  datatype Captured = Captured(state: RxState, rest: seq<RxEvent>)

  function CaptureLoop(cfg: RxConfig, s: RxState, events: seq<RxEvent>): (r: Captured)
    ensures |r.rest| <= |events|
    ensures r.state.Status() == RxNormal && !s.endCapture ==> |r.rest| < |events|
    decreases |events|
  {
    if s.endCapture then Captured(s, events)
    else if events == [] then Captured(s.WithStatus(RxDeactivated), [])
    else if StaysActive(events[0]) then CaptureLoop(cfg, Turn(cfg, s, events[0]), events[1..])
    else Captured(Turn(cfg, s, events[0]), events[1..])
  }

  function Capture(cfg: RxConfig, events: seq<RxEvent>): (r: Captured)
    ensures |r.rest| <= |events| && (r.state.Status() == RxNormal ==> |r.rest| < |events|)
  {
    var c := CaptureLoop(cfg, INIT, events);
    c.(state := Dump(cfg, c.state))
  }

  /** One output per capture for as long as captures end normally. */
  function Directory(cfg: RxConfig, events: seq<RxEvent>): (outputs: seq<seq<byte>>)
    decreases |events|
  {
    var c := Capture(cfg, events);
    [c.state.sink.out] + if c.state.Status() == RxNormal then Directory(cfg, c.rest) else []
  }
}
