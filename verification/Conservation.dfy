/** What a capture keeps: no payload byte is lost or counted twice, and EOT frames change nothing. */
module Conservation {
  import opened Machine
  import opened Sequences
  import opened Wire
  import opened Heap
  import opened ReceiverModel
  import opened Draining
  import opened Windows
  import opened Delivery
  import opened Schedules

  // ---------- Conservation of bytes ----------

  /** Every byte in the sink is counted as payload written or as noise added. */
  ghost predicate Balanced(sink: Sink) {
    U32(|sink.out|) == U32(sink.stats.writeLen + sink.stats.noiseAdded)
  }

  lemma NoiseKeepsBalance(sink: Sink, size: nat, v: byte)
    requires Balanced(sink)
    ensures Balanced(Noise(sink, size, v))
  {
    var w, n := sink.stats.writeLen, sink.stats.noiseAdded;
    U32Sum(|sink.out|, size);
    U32Sum(w + n, size);
    U32Sum(n + size, w);
  }

  lemma {:induction false} WriteNoiseKeepsBalance(sink: Sink, count: int, size: nat, v: byte)
    requires Balanced(sink)
    ensures Balanced(WriteNoise(sink, count, size, v))
    ensures WriteNoise(sink, count, size, v).stats.writeLen == sink.stats.writeLen
    ensures WriteNoise(sink, count, size, v).stats.payloadSize == sink.stats.payloadSize
    decreases count
  {
    if count > 0 {
      NoiseKeepsBalance(sink, size, v);
      WriteNoiseKeepsBalance(Noise(sink, size, v), count - 1, size, v);
    }
  }

  lemma BlockKeepsBalance(sink: Sink, payload: seq<byte>)
    requires Balanced(sink)
    ensures Balanced(WriteBlock(sink, payload))
  {
    var w, n := sink.stats.writeLen, sink.stats.noiseAdded;
    U32Sum(|sink.out|, |payload|);
    U32Sum(w + n, |payload|);
    U32Sum(w + |payload|, n);
  }

  lemma EmitKeepsBalance(cfg: RxConfig, expected: int, item: Item, sink: Sink)
    requires Balanced(sink)
    ensures var s := Emit(cfg, expected, item, sink);
            && Balanced(s)
            && s.stats.writeLen == U32(sink.stats.writeLen + |item.payload|)
            && s.stats.payloadSize == sink.stats.payloadSize
  {
    var missing := Missing(cfg, expected, item.number);
    WriteNoiseKeepsBalance(sink, missing, |item.payload|, cfg.noiseValue);
    var s := if cfg.addNoise then WriteNoise(sink, missing, |item.payload|, cfg.noiseValue) else sink;
    BlockKeepsBalance(Lose(s, missing), item.payload);
  }

  lemma {:induction false} EmitAllConserves(cfg: RxConfig, expected: int, items: seq<Item>, sink: Sink)
    requires Balanced(sink)
    ensures var s := EmitAll(cfg, expected, items, sink);
            && Balanced(s)
            && s.stats.writeLen == U32(sink.stats.writeLen + Sizes(items))
            && s.stats.payloadSize == sink.stats.payloadSize
    decreases items
  {
    if items != [] {
      EmitKeepsBalance(cfg, expected, items[0], sink);
      EmitAllConserves(cfg, Int32(items[0].number + 1), items[1..], Emit(cfg, expected, items[0], sink));
      U32Sum(sink.stats.writeLen + |items[0].payload|, Sizes(items[1..]));
    }
  }

  /** Payload bytes captured are payload bytes written or still pending. */
  ghost predicate Conserved(s: RxState) {
    && Balanced(s.sink)
    && s.sink.stats.payloadSize == U32(s.sink.stats.writeLen + Sizes(s.pending))
  }

  /** `after` has written `size` bytes of payload more than `before`. */
  ghost predicate Grows(before: Sink, after: Sink, size: int) {
    Balanced(after) && after.stats.writeLen == U32(before.stats.writeLen + size)
  }

  lemma GrowsOn(before: Sink, middle: Sink, after: Sink, done: int, left: int)
    requires Grows(before, middle, done) && Grows(middle, after, left)
    ensures Grows(before, after, done + left)
  {
    U32Sum(before.stats.writeLen + done, left);
  }

  /** It has, and the count of captured payload has stayed as it was. */
  ghost predicate Writes(before: Sink, after: Sink, size: nat) {
    Grows(before, after, size) && after.stats.payloadSize == before.stats.payloadSize
  }

  lemma EmitWindowConserves(cfg: RxConfig, order: seq<Item>, sink: Sink, size: nat)
    requires Balanced(sink) && size == Sizes(order)
    ensures Writes(sink, EmitWindow(cfg, order, sink), size)
  {
    if order != [] {
      EmitAllConserves(cfg, order[0].number, order, sink);
    }
  }

  lemma DrainConserves(cfg: RxConfig, pending: seq<Item>, sink: Sink, size: nat)
    requires Balanced(sink) && size == Sizes(pending)
    ensures Writes(sink, Drain(cfg, pending, sink), size)
  {
    OrderSizes(pending);
    EmitWindowConserves(cfg, HeapOrder(ByNumber, pending), sink, size);
  }

  lemma DumpConserves(cfg: RxConfig, s: RxState)
    requires Conserved(s)
    ensures Conserved(Dump(cfg, s)) && Dump(cfg, s).pending == []
  {
    DrainConserves(cfg, s.pending, s.sink, Sizes(s.pending));
  }

  lemma StoreConserves(cfg: RxConfig, s: RxState, f: Frame)
    requires Conserved(s) && |s.pending| < HEAP_CAPACITY
    ensures Conserved(Store(cfg, s, f))
  {
    var item := Item(Key(cfg, f, s.Packets()), Payload(f));
    SizesAppend(s.pending, [item]);
    U32Sum(s.sink.stats.writeLen + Sizes(s.pending), |Payload(f)|);
  }

  /** Every step of a run whose windows fit the heap conserves bytes. */
  lemma {:induction false} RunConserves(cfg: RxConfig, s: RxState, frames: seq<Frame>)
    requires Conserved(s)
    requires AllFitHeap(Windowed(cfg.pbSize, s.pending, s.index, Arrivals(cfg, s.Packets(), frames)))
    ensures Conserved(Run(cfg, s, frames))
    decreases frames
  {
    if frames != [] {
      var next := Step(cfg, s, frames[0]);
      if Classify(frames[0]) != NoControl {
        RunConserves(cfg, next, frames[1..]);
      } else {
        var a, later := ArrivalOf(cfg, s.Packets(), frames[0]), Arrivals(cfg, U32(s.Packets() + 1), frames[1..]);
        WindowFitsHeap(cfg, s.pending, s.index, a, later);
        DataStep(cfg, s, frames[0], s.pending);
        DumpConserves(cfg, s);
        StoreConserves(cfg, if Cuts(cfg, s.index, a) then Dump(cfg, s) else s, frames[0]);
        RunConserves(cfg, next, frames[1..]);
      }
    }
  }

  lemma WindowFitsHeap(cfg: RxConfig, current: seq<Item>, used: nat, a: Arrival, later: seq<Arrival>)
    requires AllFitHeap(Windowed(cfg.pbSize, current, used, [a] + later))
    ensures AllFitHeap(Windowed(cfg.pbSize, NextWindow(cfg, current, used, a), NextUsed(cfg, used, a), later))
    ensures |current| <= HEAP_CAPACITY && |NextWindow(cfg, current, used, a)| <= HEAP_CAPACITY
    ensures Keep(current) == current
    ensures Keep(NextWindow(cfg, current, used, a)) == NextWindow(cfg, current, used, a)
    ensures !Cuts(cfg, used, a) ==> |current| < HEAP_CAPACITY
  {
    assert ([a] + later)[1..] == later;
    var next := NextWindow(cfg, current, used, a);
    var ws := Windowed(cfg.pbSize, next, NextUsed(cfg, used, a), later);
    FirstWindowExtends(cfg.pbSize, next, NextUsed(cfg, used, a), later);
    if Cuts(cfg, used, a) {
      assert Windowed(cfg.pbSize, current, used, [a] + later) == [current] + ws;
      assert current in [current] + ws;
      assert forall w :: w in ws ==> w in [current] + ws;
    } else {
      assert Windowed(cfg.pbSize, current, used, [a] + later) == ws;
    }
  }

  lemma {:induction false} FirstWindowExtends(pbSize: nat, current: seq<Item>, used: nat, arrivals: seq<Arrival>)
    ensures var ws := Windowed(pbSize, current, used, arrivals);
            ws != [] && ws[0] in ws && |current| <= |ws[0]|
    decreases arrivals
  {
    if arrivals != [] && used + arrivals[0].capLen < pbSize {
      FirstWindowExtends(pbSize, current + [arrivals[0].item], used + arrivals[0].capLen, arrivals[1..]);
    }
  }

  // ---------- What is written, and what an overfull heap drops ----------

  /** What the window that the arrival completes writes. */
  function Flushed(cfg: RxConfig, current: seq<Item>, used: nat, a: Arrival): nat {
    if Cuts(cfg, used, a) then Sizes(Keep(current)) else 0
  }

  /** What the windows write when window `current` has been begun. */
  function ToWrite(cfg: RxConfig, current: seq<Item>, used: nat, arrivals: seq<Arrival>): nat {
    Sizes(Kept(Windowed(cfg.pbSize, current, used, arrivals)))
  }

  lemma WriteStep(cfg: RxConfig, current: seq<Item>, used: nat, a: Arrival, later: seq<Arrival>)
    ensures ToWrite(cfg, current, used, [a] + later)
         == Flushed(cfg, current, used, a)
          + ToWrite(cfg, NextWindow(cfg, current, used, a), NextUsed(cfg, used, a), later)
  {
    assert ([a] + later)[1..] == later;
    if Cuts(cfg, used, a) {
      SizesAppend(Keep(current), Kept(Windowed(cfg.pbSize, [a.item], a.capLen, later)));
    }
  }

  lemma StoreWritesNothing(cfg: RxConfig, before: Sink, s: RxState, f: Frame, size: nat)
    requires Grows(before, s.sink, size)
    ensures Grows(before, Store(cfg, s, f).sink, size)
  {
    assert Store(cfg, s, f).sink.stats.writeLen == s.sink.stats.writeLen;
  }

  lemma DumpGrows(cfg: RxConfig, s: RxState, size: nat)
    requires Balanced(s.sink) && size == Sizes(s.pending)
    ensures Grows(s.sink, Dump(cfg, s).sink, size)
  {
    DrainConserves(cfg, s.pending, s.sink, size);
  }

  lemma DataWrites(cfg: RxConfig, s: RxState, f: Frame, current: seq<Item>, done: nat)
    requires Classify(f) == NoControl && s.pending == Keep(current) && Balanced(s.sink)
    requires done == Flushed(cfg, current, s.index, ArrivalOf(cfg, s.Packets(), f))
    ensures Grows(s.sink, Step(cfg, s, f).sink, done)
  {
    if Cuts(cfg, s.index, ArrivalOf(cfg, s.Packets(), f)) {
      DumpGrows(cfg, s, done);
      StoreWritesNothing(cfg, s.sink, Dump(cfg, s), f, done);
      assert Step(cfg, s, f) == Store(cfg, Dump(cfg, s), f);
    } else {
      assert Grows(s.sink, s.sink, done);
      StoreWritesNothing(cfg, s.sink, s, f, done);
      assert Step(cfg, s, f) == Store(cfg, s, f);
    }
  }

  /** One data frame splits what is to be written into what its window completes and what is left. */
  lemma DataSplitsWrites(cfg: RxConfig, s: RxState, f: Frame, rest: seq<Frame>, current: seq<Item>, total: nat)
    returns (window: seq<Item>, done: nat, left: nat)
    requires Classify(f) == NoControl && s.pending == Keep(current) && Balanced(s.sink)
    requires total == ToWrite(cfg, current, s.index, Arrivals(cfg, s.Packets(), [f] + rest))
    ensures var next := Step(cfg, s, f);
            && next.pending == Keep(window) && Grows(s.sink, next.sink, done)
            && left == ToWrite(cfg, window, next.index, Arrivals(cfg, next.Packets(), rest))
            && total == done + left
  {
    var a, later := ArrivalOf(cfg, s.Packets(), f), Arrivals(cfg, U32(s.Packets() + 1), rest);
    assert ([f] + rest)[1..] == rest;
    window, done := NextWindow(cfg, current, s.index, a), Flushed(cfg, current, s.index, a);
    left := ToWrite(cfg, window, NextUsed(cfg, s.index, a), later);
    DataStep(cfg, s, f, current);
    DataWrites(cfg, s, f, current, done);
    WriteStep(cfg, current, s.index, a, later);
  }

  /** The sink after a run and the final flush. */
  function Final(cfg: RxConfig, s: RxState, frames: seq<Frame>): Sink {
    Dump(cfg, Run(cfg, s, frames)).sink
  }

  lemma FinalStep(cfg: RxConfig, s: RxState, f: Frame, rest: seq<Frame>)
    ensures Final(cfg, s, [f] + rest) == Final(cfg, Step(cfg, s, f), rest)
    ensures Classify(f) != NoControl ==> Step(cfg, s, f).sink == s.sink
  {
    assert ([f] + rest)[1..] == rest;
  }

  lemma FlushWrites(cfg: RxConfig, s: RxState, current: seq<Item>, total: nat, end: Sink)
    requires s.pending == Keep(current) && Balanced(s.sink) && end == Final(cfg, s, [])
    requires total == ToWrite(cfg, current, s.index, [])
    ensures Grows(s.sink, end, total)
  {
    assert Kept([current]) == Keep(current) + [] == Keep(current);
    DrainConserves(cfg, s.pending, s.sink, total);
  }

  /** From any state a run writes what the heap keeps of the windows to come. */
  lemma {:induction false} RunWrites(cfg: RxConfig, s: RxState, frames: seq<Frame>, current: seq<Item>,
                                     total: nat, end: Sink)
    requires s.pending == Keep(current) && Balanced(s.sink) && end == Final(cfg, s, frames)
    requires total == ToWrite(cfg, current, s.index, Arrivals(cfg, s.Packets(), frames))
    ensures Grows(s.sink, end, total)
    decreases frames
  {
    if frames == [] {
      FlushWrites(cfg, s, current, total, end);
      assert Grows(s.sink, end, total);
    } else {
      var f, rest := frames[0], frames[1..];
      var next := Step(cfg, s, f);
      assert frames == [f] + rest;
      FinalStep(cfg, s, f, rest);
      if Classify(f) != NoControl {
        RunWrites(cfg, next, rest, current, total, end);
        assert Grows(s.sink, end, total);
      } else {
        var window, done, left := DataSplitsWrites(cfg, s, f, rest, current, total);
        RunWrites(cfg, next, rest, window, left, end);
        GrowsOn(s.sink, next.sink, end, done, left);
        assert Grows(s.sink, end, total);
      }
    }
  }

  /** What the run and the final flush count, apart from noise. */
  lemma FinalCounts(cfg: RxConfig, frames: seq<Frame>, end: Sink, kept: nat, captured: nat)
    requires end == Final(cfg, INIT, frames)
    requires kept == Sizes(Kept(WindowsOf(cfg, frames)))
    requires captured == |Concat(PayloadsOf(DataFrames(frames)))|
    ensures Balanced(end) && end.stats.writeLen == U32(kept)
    ensures end.stats.payloadSize == U32(captured)
  {
    RunWrites(cfg, INIT, frames, [], kept, end);
    RunCounts(cfg, INIT, frames);
    DrainKeepsProgress(cfg, Run(cfg, INIT, frames).pending, Run(cfg, INIT, frames).sink);
  }

  lemma CaptureEnds(cfg: RxConfig, events: seq<RxEvent>, frames: seq<Frame>, sink: Sink, end: Sink)
    requires frames == Seen(0, events) && sink == Capture(cfg, events).state.sink
    requires end == Final(cfg, INIT, frames)
    ensures sink.out == end.out && sink.stats.(status := end.stats.status) == end.stats
  {
    CaptureIsRun(cfg, events);
  }

  lemma SameCounters(sink: Sink, end: Sink, kept: nat, captured: nat)
    requires sink.out == end.out && sink.stats.(status := end.stats.status) == end.stats
    requires Balanced(end) && end.stats.writeLen == U32(kept) && end.stats.payloadSize == U32(captured)
    ensures Balanced(sink) && sink.stats.writeLen == U32(kept) && sink.stats.payloadSize == U32(captured)
  {
    assert sink.stats.writeLen == end.stats.writeLen && sink.stats.payloadSize == end.stats.payloadSize;
  }

  /**
   At the end of a capture under any schedule: `kept` bytes of the `captured` payload have been written,
   the rest of the output is noise, and the two are equal if no window overflows the heap, and, blocks
   not being empty, only then.
   */
  lemma CaptureConserves(cfg: RxConfig, events: seq<RxEvent>, frames: seq<Frame>, sink: Sink)
    returns (kept: nat, captured: nat)
    requires frames == Seen(0, events) && sink == Capture(cfg, events).state.sink
    ensures U32(|sink.out|) == U32(sink.stats.writeLen + sink.stats.noiseAdded)
    ensures sink.stats.writeLen == U32(kept) && sink.stats.payloadSize == U32(captured) && kept <= captured
    ensures captured == |Concat(PayloadsOf(DataFrames(frames)))|
    ensures AllFitHeap(WindowsOf(cfg, frames)) ==> kept == captured
    ensures NoneEmptyPayload(DataFrames(frames)) && kept == captured ==> AllFitHeap(WindowsOf(cfg, frames))
  {
    kept, captured := Sizes(Kept(WindowsOf(cfg, frames))), |Concat(PayloadsOf(DataFrames(frames)))|;
    var end := Final(cfg, INIT, frames);
    CaptureEnds(cfg, events, frames, sink, end);
    FinalCounts(cfg, frames, end, kept, captured);
    SameCounters(sink, end, kept, captured);
    KeptOfCaptured(cfg, frames, kept, captured);
  }

  // ---------- What the counters of arriving frames say ----------

  /** `after` has counted the given data frames on top of `before`. */
  ghost predicate Counts(after: RxStats, before: RxStats, data: seq<Frame>) {
    && after.packets == U32(before.packets + |data|)
    && after.capLen == U32(before.capLen + TotalLength(data))
    && after.payloadSize == U32(before.payloadSize + |Concat(PayloadsOf(data))|)
  }

  lemma CountsOneMore(after: RxStats, middle: RxStats, before: RxStats, f: Frame, later: seq<Frame>)
    requires SameProgress(middle, Count(before, |f|, |Payload(f)|)) && Counts(after, middle, later)
    ensures Counts(after, before, [f] + later)
  {
    assert ([f] + later)[1..] == later;
    U32Sum(before.packets + 1, |later|);
    U32Sum(before.capLen + |f|, TotalLength(later));
    U32Sum(before.payloadSize + |Payload(f)|, |Concat(PayloadsOf(later))|);
  }

  lemma DataCounts(cfg: RxConfig, s: RxState, f: Frame)
    requires Classify(f) == NoControl
    ensures SameProgress(Step(cfg, s, f).sink.stats, Count(s.sink.stats, |f|, |Payload(f)|))
  {
    DrainKeepsProgress(cfg, s.pending, s.sink);
  }

  /** Packets, capture lengths and payload sizes of exactly the data frames are added up. */
  lemma {:induction false} RunCounts(cfg: RxConfig, s: RxState, frames: seq<Frame>)
    ensures Counts(Run(cfg, s, frames).sink.stats, s.sink.stats, DataFrames(frames))
    decreases frames
  {
    if frames != [] {
      var f, later := frames[0], DataFrames(frames[1..]);
      var next := Step(cfg, s, f);
      RunCounts(cfg, next, frames[1..]);
      if Classify(f) != NoControl {
        assert [] + later == later;
      } else {
        DataCounts(cfg, s, f);
        CountsOneMore(Run(cfg, next, frames[1..]).sink.stats, next.sink.stats, s.sink.stats, f, later);
      }
    }
  }

  // ---------- Unordered captures lose nothing ----------

  lemma {:induction false} UnorderedEmitsNoLoss(cfg: RxConfig, expected: int, items: seq<Item>, sink: Sink)
    requires !cfg.ordered
    ensures EmitAll(cfg, expected, items, sink).stats.blocksLost == sink.stats.blocksLost
    ensures EmitAll(cfg, expected, items, sink).stats.noiseAdded == sink.stats.noiseAdded
    decreases items
  {
    if items != [] {
      UnorderedEmitsNoLoss(cfg, Int32(items[0].number + 1), items[1..], Emit(cfg, expected, items[0], sink));
    }
  }

  lemma UnorderedDumpLosesNothing(cfg: RxConfig, s: RxState)
    requires !cfg.ordered
    ensures Dump(cfg, s).sink.stats.blocksLost == s.sink.stats.blocksLost
    ensures Dump(cfg, s).sink.stats.noiseAdded == s.sink.stats.noiseAdded
  {
    var order := HeapOrder(ByNumber, s.pending);
    if order != [] {
      UnorderedEmitsNoLoss(cfg, order[0].number, order, s.sink);
    }
  }

  lemma {:induction false} UnorderedRunLosesNothing(cfg: RxConfig, s: RxState, frames: seq<Frame>)
    requires !cfg.ordered
    ensures Run(cfg, s, frames).sink.stats.blocksLost == s.sink.stats.blocksLost
    ensures Run(cfg, s, frames).sink.stats.noiseAdded == s.sink.stats.noiseAdded
    decreases frames
  {
    if frames != [] {
      UnorderedDumpLosesNothing(cfg, s);
      UnorderedRunLosesNothing(cfg, Step(cfg, s, frames[0]), frames[1..]);
    }
  }

  /** An unordered capture under any schedule counts no lost block and adds no noise. */
  lemma UnorderedLosesNothing(cfg: RxConfig, events: seq<RxEvent>)
    requires !cfg.ordered
    ensures Capture(cfg, events).state.sink.stats.blocksLost == 0
    ensures Capture(cfg, events).state.sink.stats.noiseAdded == 0
  {
    CaptureIsRun(cfg, events);
    UnorderedRunLosesNothing(cfg, INIT, Seen(0, events));
    UnorderedDumpLosesNothing(cfg, Run(cfg, INIT, Seen(0, events)));
  }

  // ---------- EOT frames change nothing ----------

  function NoEot(frames: seq<Frame>): seq<Frame>
    decreases frames
  {
    if frames == [] then []
    else (if Classify(frames[0]) == Eot then [] else [frames[0]]) + NoEot(frames[1..])
  }

  /** An event without its EOT frames; a dispatch of nothing else does not take place. */
  function WithoutEot(e: RxEvent): seq<RxEvent> {
    match e
    case Dispatch(frames, stop) => if NoEot(frames) == [] && !stop then [] else [Dispatch(NoEot(frames), stop)]
    case Timeout => [e]
    case PollError(_) => [e]
  }

  function EraseEot(events: seq<RxEvent>): seq<RxEvent>
    decreases events
  {
    if events == [] then [] else WithoutEot(events[0]) + EraseEot(events[1..])
  }

  /** The states differ at most in the flag that nothing reads. */
  ghost predicate Alike(s: RxState, t: RxState) {
    s.(eotReached := false) == t.(eotReached := false)
  }

  lemma StepAlike(cfg: RxConfig, s: RxState, t: RxState, f: Frame)
    requires Alike(s, t)
    ensures Alike(Step(cfg, s, f), Step(cfg, t, f))
    ensures Classify(f) == Eot ==> Alike(Step(cfg, s, f), t)
  {
  }

  lemma {:induction false} RunAlike(cfg: RxConfig, s: RxState, t: RxState, frames: seq<Frame>)
    requires Alike(s, t)
    ensures Alike(Run(cfg, s, frames), Run(cfg, t, NoEot(frames)))
    decreases frames
  {
    if frames != [] {
      var f, rest := frames[0], frames[1..];
      StepAlike(cfg, s, t, f);
      if Classify(f) == Eot {
        RunAlike(cfg, Step(cfg, s, f), t, rest);
        assert NoEot(frames) == [] + NoEot(rest) == NoEot(rest);
      } else {
        RunAlike(cfg, Step(cfg, s, f), Step(cfg, t, f), rest);
        assert NoEot(frames) == [f] + NoEot(rest);
        assert ([f] + NoEot(rest))[1..] == NoEot(rest);
      }
    }
  }

  lemma {:induction false} CaptureLoopAlike(cfg: RxConfig, s: RxState, t: RxState, events: seq<RxEvent>)
    requires Alike(s, t)
    ensures var c, d := CaptureLoop(cfg, s, events), CaptureLoop(cfg, t, EraseEot(events));
            Alike(c.state, d.state) && d.rest == EraseEot(c.rest)
    decreases events
  {
    if !s.endCapture && events != [] {
      var e, rest := events[0], events[1..];
      var next := Turn(cfg, s, e);
      TurnAlike(cfg, s, t, e);
      if WithoutEot(e) == [] {
        assert EraseEot(events) == EraseEot(rest);
        CaptureLoopAlike(cfg, next, t, rest);
      } else {
        var e' := WithoutEot(e)[0];
        assert EraseEot(events) == [e'] + EraseEot(rest);
        assert ([e'] + EraseEot(rest))[1..] == EraseEot(rest);
        if StaysActive(e) {
          CaptureLoopAlike(cfg, next, Turn(cfg, t, e'), rest);
        }
      }
    }
  }

  lemma TurnAlike(cfg: RxConfig, s: RxState, t: RxState, e: RxEvent)
    requires Alike(s, t)
    ensures WithoutEot(e) == [] ==> StaysActive(e) && Alike(Turn(cfg, s, e), t)
    ensures WithoutEot(e) != [] ==>
              && WithoutEot(e) == [WithoutEot(e)[0]] && StaysActive(e) == StaysActive(WithoutEot(e)[0])
              && Alike(Turn(cfg, s, e), Turn(cfg, t, WithoutEot(e)[0]))
  {
    if e.Dispatch? {
      RunAlike(cfg, s, t, e.frames);
    }
  }

  /** Deleting every EOT frame, and the dispatches of nothing else, leaves all outputs as they were. */
  lemma {:induction false} EotFramesAreIrrelevant(cfg: RxConfig, events: seq<RxEvent>)
    ensures Directory(cfg, EraseEot(events)) == Directory(cfg, events)
    decreases |events|
  {
    CaptureLoopAlike(cfg, INIT, INIT, events);
    var c := Capture(cfg, events);
    if c.state.Status() == RxNormal {
      EotFramesAreIrrelevant(cfg, c.rest);
    }
  }
}
