/**
 The receiver of libdxwifi/receiver.c: a packet buffer filled from the front, a heap of nodes
 that point into it, and the loop that feeds both.
 */
module Receiver {
  import opened Machine
  import opened Sequences
  import opened Wire
  import opened Heap
  import opened ReceiverModel

  /** Where a buffered payload lies in the packet buffer, and the key it is sorted by. */
  datatype Node = Node(frameNumber: int, data: nat, size: nat)

  predicate NodeLess(a: Node, b: Node) {
    a.frameNumber < b.frameNumber
  }

  predicate InRange(n: Node, limit: nat) {
    n.data + n.size <= limit
  }

  /** The item a node stands for, given the contents of the packet buffer. */
  function View(buffer: seq<byte>, n: Node): Item {
    Item(n.frameNumber, if InRange(n, |buffer|) then buffer[n.data..n.data + n.size] else [])
  }

  function Viewer(buffer: seq<byte>): Node -> Item {
    n => View(buffer, n)
  }

  lemma ViewKeepsHeapOrder(buffer: seq<byte>, nodes: seq<Node>)
    ensures HeapOrder(ByNumber, Map(Viewer(buffer), nodes)) == Map(Viewer(buffer), HeapOrder(NodeLess, nodes))
  {
    HeapOrderMap(Viewer(buffer), NodeLess, ByNumber, nodes);
  }

  /** The slices are stacked one behind the other, the last one ending below `limit`. */
  ghost predicate Stacked(nodes: seq<Node>, limit: nat) {
    nodes != [] ==>
      && InRange(nodes[|nodes| - 1], limit)
      && Stacked(nodes[..|nodes| - 1], nodes[|nodes| - 1].data)
  }

  /** Stacked slices stay below the limit and do not overlap. */
  lemma {:induction false} StackedSlicesAreDisjoint(nodes: seq<Node>, limit: nat)
    requires Stacked(nodes, limit)
    ensures forall i :: 0 <= i < |nodes| ==> InRange(nodes[i], limit)
    ensures forall i, j :: 0 <= i < j < |nodes| ==> InRange(nodes[i], nodes[j].data)
  {
    if nodes != [] {
      var init := nodes[..|nodes| - 1];
      StackedSlicesAreDisjoint(init, nodes[|nodes| - 1].data);
      assert forall i :: 0 <= i < |init| ==> nodes[i] == init[i];
    }
  }

  lemma StackedGrows(nodes: seq<Node>, limit: nat, node: Node, higher: nat)
    requires Stacked(nodes, limit) && limit <= node.data && InRange(node, higher)
    ensures Stacked(nodes, higher) && Stacked(nodes + [node], higher)
  {
    assert (nodes + [node])[..|nodes|] == nodes;
  }

  /** Writing behind `limit` leaves the slices before it as they were. */
  lemma OldViewsStay(before: seq<byte>, after: seq<byte>, nodes: seq<Node>, limit: nat)
    requires |before| == |after| && limit <= |before| && before[..limit] == after[..limit]
    requires Stacked(nodes, limit)
    ensures Map(Viewer(before), nodes) == Map(Viewer(after), nodes)
  {
    StackedSlicesAreDisjoint(nodes, limit);
    forall i | 0 <= i < |nodes| ensures View(before, nodes[i]) == View(after, nodes[i]) {
      var n := nodes[i];
      SliceOfSlice(before, 0, limit, n.data, n.data + n.size);
      SliceOfSlice(after, 0, limit, n.data, n.data + n.size);
    }
  }

  /** A frame copied to `limit` is where its node says it is. */
  lemma StoredView(buffer: seq<byte>, limit: nat, frame: Frame, node: Node)
    requires limit + |frame| <= |buffer| && buffer[limit..limit + |frame|] == frame
    requires node.data == limit + ItLen(frame) + MAC_HEADER_LEN
    requires node.data + node.size == limit + |frame| - FCS_LEN
    ensures View(buffer, node) == Item(node.frameNumber, Payload(frame))
  {
    SliceOfSlice(buffer, limit, limit + |frame|, node.data - limit, node.data - limit + node.size);
  }

  ghost predicate AllInRange(nodes: seq<Node>, limit: nat) {
    forall n :: n in nodes ==> InRange(n, limit)
  }

  /** What the drain loop will make of `sink` when heap `t` is left to pop. */
  ghost function Remaining(cfg: RxConfig, buffer: seq<byte>, expected: int, t: seq<Node>, sink: Sink): Sink {
    EmitAll(cfg, expected, Map(Viewer(buffer), PopAll(NodeLess, t)), sink)
  }

  lemma StartDrain(cfg: RxConfig, buffer: seq<byte>, expected: int, nodes: seq<Node>, limit: nat, sink: Sink)
    requires nodes != [] ==> expected == HeapOf(NodeLess, nodes)[0].frameNumber
    requires Stacked(nodes, limit) && limit <= |buffer|
    ensures Remaining(cfg, buffer, expected, HeapOf(NodeLess, nodes), sink)
         == Drain(cfg, Map(Viewer(buffer), nodes), sink)
    ensures AllInRange(HeapOf(NodeLess, nodes), |buffer|)
  {
    ViewKeepsHeapOrder(buffer, nodes);
    HeapOfPermutes(NodeLess, nodes);
    StackedSlicesAreDisjoint(nodes, limit);
    forall n | n in HeapOf(NodeLess, nodes) ensures InRange(n, |buffer|) {
      assert n in multiset(HeapOf(NodeLess, nodes)) && n in multiset(nodes);
    }
  }

  lemma DrainStep(cfg: RxConfig, buffer: seq<byte>, expected: int, t: seq<Node>, sink: Sink)
    requires t != []
    ensures Remaining(cfg, buffer, expected, t, sink)
         == Remaining(cfg, buffer, Int32(t[0].frameNumber + 1), PopRest(NodeLess, t),
                      Emit(cfg, expected, View(buffer, t[0]), sink))
  {
    var tail := PopAll(NodeLess, PopRest(NodeLess, t));
    var first := View(buffer, t[0]);
    MapCons(Viewer(buffer), t[0], tail);
    var items := [first] + Map(Viewer(buffer), tail);
    assert items[1..] == Map(Viewer(buffer), tail);
    assert Map(Viewer(buffer), PopAll(NodeLess, t)) == items;
  }

  lemma PopKeepsRange(t: seq<Node>, limit: nat)
    requires t != [] && AllInRange(t, limit)
    ensures AllInRange(PopRest(NodeLess, t), limit)
  {
    PopRemovesRoot(NodeLess, t);
    forall n | n in PopRest(NodeLess, t) ensures InRange(n, limit) {
      assert n in multiset(PopRest(NodeLess, t)) && n in multiset(t);
    }
  }

  /**
   Counts the two control values. The shares are integer quotients, so every threshold in [0, 1)
   asks for all bytes to match.
   */
  method CheckFrameControl(frame: Frame, threshold: real) returns (kind: ControlType)
    requires 0.0 <= threshold < 1.0
    ensures kind == Eot <==> Payload(frame) == Fill(256, 0xaa)
    ensures kind == Preamble <==> Payload(frame) == Fill(256, 0xff)
    ensures kind == Classify(frame)
  {
    var payload := Payload(frame);
    MeaningExactly(payload);
    var eot, preamble := 0, 0;
    kind := NoControl;
    if |payload| == CONTROL_DATA_LEN {
      for i := 0 to |payload|
        invariant 0 <= eot <= i && 0 <= preamble <= i
        invariant eot == i <==> AllBytes(payload[..i], EOT_BYTE)
        invariant preamble == i <==> AllBytes(payload[..i], PREAMBLE_BYTE)
      {
        assert payload[..i + 1] == payload[..i] + [payload[i]];
        if payload[i] == PREAMBLE_BYTE {
          preamble := preamble + 1;
        } else if payload[i] == EOT_BYTE {
          eot := eot + 1;
        }
      }
      assert payload[..|payload|] == payload;
      if (eot / |payload|) as real > threshold {
        kind := Eot;
      } else if (preamble / |payload|) as real > threshold {
        kind := Preamble;
      }
    }
  }

  /** The frames fit into the packet buffer. */
  ghost predicate AllFit(cfg: RxConfig, frames: seq<Frame>) {
    frames != [] ==> |frames[0]| <= cfg.pbSize && AllFit(cfg, frames[1..])
  }

  ghost predicate EventsFit(cfg: RxConfig, events: seq<RxEvent>) {
    events != [] ==> (events[0].Dispatch? ==> AllFit(cfg, events[0].frames)) && EventsFit(cfg, events[1..])
  }

  const CONTROL_THRESHOLD: real := 0.75

  class FrameController {
    const cfg: RxConfig
    const packetHeap: BinaryHeap<Node>
    const packetBuffer: array<byte>
    var index: nat
    var eotReached: bool
    var preambleRecv: bool
    var endCapture: bool
    var rxStats: RxStats
    var written: seq<byte>

    /** The nodes in the heap, in order of arrival. */
    ghost var nodes: seq<Node>

    ghost predicate Valid()
      reads this, packetHeap, packetHeap.tree
    {
      && packetHeap.Valid()
      && packetHeap.tree.Length == HEAP_CAPACITY
      && packetHeap.compare == NodeLess
      && packetHeap.tree as object != packetBuffer
      && packetHeap.Contents() == HeapOf(NodeLess, nodes)
      && packetBuffer.Length == cfg.pbSize
      && index <= cfg.pbSize
      && Stacked(nodes, index)
    }

    ghost function Pending(): seq<Item>
      reads this, packetBuffer
    {
      Map(Viewer(packetBuffer[..]), nodes)
    }

    ghost function Abs(): RxState
      reads this, packetBuffer
    {
      RxState(Sink(written, rxStats), Pending(), index, eotReached, preambleRecv, endCapture)
    }

    constructor (cfg: RxConfig)
      ensures Valid() && fresh(packetHeap) && fresh(packetHeap.tree) && fresh(packetBuffer)
      ensures this.cfg == cfg && Abs() == INIT
    {
      this.cfg := cfg;
      packetHeap := new BinaryHeap.Init(HEAP_CAPACITY, NodeLess);
      packetBuffer := new byte[cfg.pbSize](_ => 0);
      index, nodes, written := 0, [], [];
      eotReached, preambleRecv, endCapture := false, false, false;
      rxStats := INIT.sink.stats;
    }

    method HandleFrameControl(kind: ControlType)
      requires Valid() && kind != NoControl
      modifies this`endCapture, this`preambleRecv, this`eotReached
      ensures Valid() && Abs() == Control(old(Abs()), kind)
    {
      match kind
      case Preamble =>
        if rxStats.packets > 0 {
          endCapture := true;
        }
        preambleRecv := true;
      case Eot =>
        eotReached := true;
    }

    /** One turn of the drain loop: noise for the gap before the node, then the node's payload. */
    method WriteNode(node: Node, expected: int)
      requires InRange(node, packetBuffer.Length)
      modifies this`written, this`rxStats
      ensures Sink(written, rxStats) ==
              Emit(cfg, expected, View(packetBuffer[..], node), old(Sink(written, rxStats)))
    {
      if cfg.ordered && expected != node.frameNumber {
        var missing := Int32(node.frameNumber - expected);
        if cfg.addNoise {
          var i := 0;
          while i < missing
            invariant 0 <= i && (missing >= 0 ==> i <= missing)
            invariant WriteNoise(Sink(written, rxStats), missing - i, node.size, cfg.noiseValue) ==
                      WriteNoise(old(Sink(written, rxStats)), missing, node.size, cfg.noiseValue)
          {
            written := written + Fill(node.size, cfg.noiseValue);
            rxStats := rxStats.(noiseAdded := U32(rxStats.noiseAdded + node.size));
            i := i + 1;
          }
        }
        rxStats := rxStats.(blocksLost := U32(rxStats.blocksLost + missing));
      }
      written := written + packetBuffer[node.data..node.data + node.size];
      rxStats := rxStats.(writeLen := U32(rxStats.writeLen + node.size));
    }

    /** The drain loop: pops until the heap is empty. */
    method PopAndWrite(ghost t0: seq<Node>)
      requires packetHeap.Valid() && packetHeap.tree.Length > 0 && packetHeap.compare == NodeLess
      requires packetHeap.tree as object != packetBuffer
      requires packetHeap.Contents() == t0 && AllInRange(t0, packetBuffer.Length)
      modifies this`written, this`rxStats, packetHeap`count, packetHeap.tree
      ensures packetHeap.Valid() && packetHeap.Contents() == []
      ensures Sink(written, rxStats) ==
              Remaining(cfg, packetBuffer[..], old(packetHeap.tree[0]).frameNumber, t0, old(Sink(written, rxStats)))
    {
      ghost var t, buffer := t0, packetBuffer[..];
      var expected := packetHeap.tree[0].frameNumber;
      ghost var goal := Remaining(cfg, buffer, expected, t, Sink(written, rxStats));
      while true
        invariant packetHeap.Valid() && packetHeap.Contents() == t && AllInRange(t, packetBuffer.Length)
        invariant packetBuffer[..] == buffer
        invariant Remaining(cfg, buffer, expected, t, Sink(written, rxStats)) == goal
        decreases |t|
      {
        var ok, node := packetHeap.Pop();
        if !ok { break; }
        DrainStep(cfg, buffer, expected, t, Sink(written, rxStats));
        PopKeepsRange(t, packetBuffer.Length);
        WriteNode(node, expected);
        expected := Int32(node.frameNumber + 1);
        t := PopRest(NodeLess, t);
      }
    }

    /** Writes out everything that is buffered, then reuses the buffer from the front. */
    method DumpPacketBuffer()
      requires Valid()
      modifies this`written, this`rxStats, this`index, this`nodes, packetHeap`count, packetHeap.tree
      ensures Valid() && index == 0 && Abs() == Dump(cfg, old(Abs()))
    {
      StartDrain(cfg, packetBuffer[..], packetHeap.tree[0].frameNumber, nodes, index, Sink(written, rxStats));
      PopAndWrite(packetHeap.Contents());
      index, nodes := 0, [];
    }

    /** Copies the frame behind the last one and says where its payload went. */
    method CopyIn(frame: Frame, number: int) returns (node: Node)
      requires index + |frame| <= packetBuffer.Length && Stacked(nodes, index)
      modifies packetBuffer
      ensures View(packetBuffer[..], node) == Item(number, Payload(frame)) && Pending() == old(Pending())
      ensures index <= node.data && InRange(node, index + |frame|) && node.size == |Payload(frame)|
    {
      forall i | 0 <= i < |frame| {
        packetBuffer[index + i] := frame[i];
      }
      OldViewsStay(old(packetBuffer[..]), packetBuffer[..], nodes, index);
      var payload := index + ItLen(frame) + MAC_HEADER_LEN;
      var fcs := index + |frame| - FCS_LEN;
      node := Node(number, payload, fcs - payload);
      StoredView(packetBuffer[..], index, frame, node);
    }

    /** Pushes the node; the next write position is `next`. */
    method PushNode(node: Node, next: nat)
      requires Valid() && index <= node.data && InRange(node, next) && next <= cfg.pbSize
      modifies this`nodes, this`index, packetHeap`count, packetHeap.tree
      ensures Valid() && index == next
      ensures Pending() == Append(old(Pending()), View(packetBuffer[..], node))
    {
      StackedGrows(nodes, index, node, next);
      index := next;
      ghost var was, pending := nodes, Pending();
      if |nodes| < HEAP_CAPACITY {
        nodes := nodes + [node];
        assert nodes[..|nodes| - 1] == was;
        MapSnoc(Viewer(packetBuffer[..]), was, node);
      }
      assert Pending() == Append(pending, View(packetBuffer[..], node));
      packetHeap.Push(node);
      assert packetHeap.Contents() == HeapOf(NodeLess, nodes);
    }

    method Buffer(frame: Frame, number: int) returns (payloadSize: nat)
      requires Valid() && index + |frame| <= cfg.pbSize
      modifies this`nodes, this`index, packetBuffer, packetHeap`count, packetHeap.tree
      ensures Valid() && index == old(index) + |frame| && payloadSize == |Payload(frame)|
      ensures Pending() == Append(old(Pending()), Item(number, Payload(frame)))
    {
      var node := CopyIn(frame, number);
      PushNode(node, index + |frame|);
      payloadSize := node.size;
    }

    method StoreFrame(frame: Frame)
      requires Valid() && index + |frame| <= cfg.pbSize
      modifies this`nodes, this`index, this`rxStats, packetBuffer, packetHeap`count, packetHeap.tree
      ensures Valid() && Abs() == Store(cfg, old(Abs()), frame)
    {
      var payloadSize := Buffer(frame, Key(cfg, frame, rxStats.packets));
      ghost var buffered := Abs();
      rxStats := Count(rxStats, |frame|, payloadSize);
      assert Abs() == buffered.(sink := Sink(written, rxStats));
    }

    method ProcessFrame(frame: Frame)
      requires Valid() && |frame| <= cfg.pbSize
      modifies this, packetBuffer, packetHeap`count, packetHeap.tree
      ensures Valid() && Abs() == Step(cfg, old(Abs()), frame)
    {
      var kind := CheckFrameControl(frame, CONTROL_THRESHOLD);
      if kind != NoControl {
        HandleFrameControl(kind);
      } else {
        if index + |frame| >= cfg.pbSize {
          DumpPacketBuffer();
        }
        StoreFrame(frame);
      }
    }

    /** What one dispatch does: one callback for each frame. */
    method ProcessFrames(frames: seq<Frame>)
      requires Valid() && AllFit(cfg, frames)
      modifies this, packetBuffer, packetHeap`count, packetHeap.tree
      ensures Valid() && Abs() == Run(cfg, old(Abs()), frames)
    {
      var i := 0;
      while i < |frames|
        invariant 0 <= i <= |frames| && Valid() && AllFit(cfg, frames[i..])
        invariant Run(cfg, Abs(), frames[i..]) == Run(cfg, old(Abs()), frames)
      {
        ProcessFrame(frames[i]);
        i := i + 1;
      }
    }

    method SetStatus(status: RxStatus)
      requires Valid()
      modifies this`rxStats
      ensures Valid() && Abs() == old(Abs()).WithStatus(status)
    {
      rxStats := rxStats.(status := status);
    }

    /** One turn of the capture loop; says whether the receiver is still active. */
    method HandleEvent(e: RxEvent) returns (active: bool)
      requires Valid() && (e.Dispatch? ==> AllFit(cfg, e.frames))
      modifies this, packetBuffer, packetHeap`count, packetHeap.tree
      ensures Valid() && Abs() == Turn(cfg, old(Abs()), e) && active == StaysActive(e)
    {
      match e
      case Timeout =>
        SetStatus(RxTimedOut);
        active := false;
      case PollError(stop) =>
        active := !stop;
        SetStatus(if active then RxError else RxDeactivated);
      case Dispatch(frames, stop) =>
        ProcessFrames(frames);
        active := !stop;
    }

    /** One turn of the capture loop on what is left of the schedule. */
    method TakeTurn(events: seq<RxEvent>) returns (active: bool, rest: seq<RxEvent>)
      requires Valid() && EventsFit(cfg, events) && !endCapture
      modifies this, packetBuffer, packetHeap`count, packetHeap.tree
      ensures Valid() && EventsFit(cfg, rest) && (active ==> |rest| < |events|)
      ensures CaptureLoop(cfg, old(Abs()), events) ==
              if active then CaptureLoop(cfg, Abs(), rest) else Captured(Abs(), rest)
    {
      if events == [] {
        SetStatus(RxDeactivated);
        active, rest := false, [];
      } else {
        active := HandleEvent(events[0]);
        rest := events[1..];
      }
    }
  }

  /** The outputs still to come after a capture that ended in `state`. */
  ghost function Later(cfg: RxConfig, state: RxStatus, rest: seq<RxEvent>): seq<seq<byte>> {
    if state == RxNormal then Directory(cfg, rest) else []
  }

  class DxwifiReceiver {
    const cfg: RxConfig
    var activated: bool

    constructor (cfg: RxConfig)
      ensures this.cfg == cfg
    {
      this.cfg := cfg;
      activated := false;
    }

    /** Captures until stopped, timed out, at the end of the savefile or at the next file's preamble. */
    method CaptureEvents(fc: FrameController, events: seq<RxEvent>) returns (rest: seq<RxEvent>)
      requires fc.Valid() && EventsFit(fc.cfg, events)
      modifies this`activated, fc, fc.packetBuffer, fc.packetHeap`count, fc.packetHeap.tree
      ensures EventsFit(fc.cfg, rest)
      ensures fc.Valid() && Captured(fc.Abs(), rest) == CaptureLoop(fc.cfg, old(fc.Abs()), events)
    {
      rest := events;
      activated := true;
      while activated && !fc.endCapture
        invariant fc.Valid() && EventsFit(fc.cfg, rest)
        invariant CaptureLoop(fc.cfg, old(fc.Abs()), events) ==
                  if activated then CaptureLoop(fc.cfg, fc.Abs(), rest) else Captured(fc.Abs(), rest)
        decreases activated, |rest|
      {
        activated, rest := fc.TakeTurn(rest);
      }
    }

    method ActivateCapture(events: seq<RxEvent>) returns (written: seq<byte>, stats: RxStats, rest: seq<RxEvent>)
      requires EventsFit(cfg, events)
      modifies this`activated
      ensures EventsFit(cfg, rest)
      ensures Sink(written, stats) == Capture(cfg, events).state.sink && rest == Capture(cfg, events).rest
    {
      var fc := new FrameController(cfg);
      rest := CaptureEvents(fc, events);
      fc.DumpPacketBuffer();
      written, stats := fc.written, fc.rxStats;
    }

    /** Captures into one fresh file. */
    method OpenFileAndCapture(events: seq<RxEvent>)
      returns (written: seq<byte>, state: RxStatus, rest: seq<RxEvent>)
      requires EventsFit(cfg, events)
      modifies this`activated
      ensures EventsFit(cfg, rest) && |rest| <= |events| && (state == RxNormal ==> |rest| < |events|)
      ensures Directory(cfg, events) == [written] + Later(cfg, state, rest)
    {
      var stats;
      written, stats, rest := ActivateCapture(events);
      state := stats.status;
    }

    /** One output per capture for as long as captures end normally. */
    method CaptureInDirectory(events: seq<RxEvent>) returns (outputs: seq<seq<byte>>)
      requires EventsFit(cfg, events)
      modifies this`activated
      ensures outputs == Directory(cfg, events)
    {
      outputs := [];
      var rest, state := events, RxNormal;
      while state == RxNormal
        invariant EventsFit(cfg, rest)
        invariant Directory(cfg, events) == outputs + Later(cfg, state, rest)
        decreases |rest|, state == RxNormal
      {
        var written;
        written, state, rest := OpenFileAndCapture(rest);
        assert Directory(cfg, events) == outputs + ([written] + Later(cfg, state, rest));
        Associative(outputs, [written], Later(cfg, state, rest));
        outputs := outputs + [written];
      }
    }
  }
}
