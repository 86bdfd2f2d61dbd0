/**
 A capture without heap and packet buffer: cut the data frames greedily into windows by capture
 length, put each window in order, fill its gaps, and write the windows one after the other.
 */
module Windows {
  import opened Machine
  import opened Sequences
  import opened Wire
  import opened Heap
  import opened ReceiverModel
  import opened Draining

  datatype Arrival = Arrival(item: Item, capLen: nat)

  function ArrivalOf(cfg: RxConfig, packets: uint32, f: Frame): Arrival {
    Arrival(Item(Key(cfg, f, packets), Payload(f)), |f|)
  }

  /** The data frames among `frames` with their keys, when `packets` frames have been counted before. */
  function Arrivals(cfg: RxConfig, packets: uint32, frames: seq<Frame>): seq<Arrival>
    decreases frames
  {
    if frames == [] then []
    else if Classify(frames[0]) != NoControl then Arrivals(cfg, packets, frames[1..])
    else [ArrivalOf(cfg, packets, frames[0])] + Arrivals(cfg, U32(packets + 1), frames[1..])
  }

  /** A window ends just before the frame that would reach the size of the packet buffer. */
  function Windowed(pbSize: nat, current: seq<Item>, used: nat, arrivals: seq<Arrival>): seq<seq<Item>>
    decreases arrivals
  {
    if arrivals == [] then [current]
    else if used + arrivals[0].capLen >= pbSize then
      [current] + Windowed(pbSize, [arrivals[0].item], arrivals[0].capLen, arrivals[1..])
    else
      Windowed(pbSize, current + [arrivals[0].item], used + arrivals[0].capLen, arrivals[1..])
  }

  /** The part of a window that the heap has room for. */
  function Keep(window: seq<Item>): seq<Item> {
    if |window| <= HEAP_CAPACITY then window else window[..HEAP_CAPACITY]
  }

  function WindowBytes(cfg: RxConfig, window: seq<Item>): seq<byte> {
    OrderBytes(cfg, HeapOrder(ByNumber, Keep(window)))
  }

  function Output(cfg: RxConfig, windows: seq<seq<Item>>): seq<byte> {
    if windows == [] then [] else WindowBytes(cfg, windows[0]) + Output(cfg, windows[1..])
  }

  /** Draining does not touch what counts the frames that came in. */
  predicate SameProgress(a: RxStats, b: RxStats) {
    a.packets == b.packets && a.capLen == b.capLen && a.payloadSize == b.payloadSize && a.status == b.status
  }

  lemma {:induction false} EmitAllKeepsProgress(cfg: RxConfig, expected: int, items: seq<Item>, sink: Sink)
    ensures SameProgress(EmitAll(cfg, expected, items, sink).stats, sink.stats)
    decreases items
  {
    if items != [] {
      WriteNoiseKeepsProgress(sink, Missing(cfg, expected, items[0].number), |items[0].payload|, cfg.noiseValue);
      EmitAllKeepsProgress(cfg, Int32(items[0].number + 1), items[1..], Emit(cfg, expected, items[0], sink));
    }
  }

  lemma {:induction false} WriteNoiseKeepsProgress(sink: Sink, count: int, size: nat, v: byte)
    ensures SameProgress(WriteNoise(sink, count, size, v).stats, sink.stats)
    decreases count
  {
    if count > 0 {
      WriteNoiseKeepsProgress(Noise(sink, size, v), count - 1, size, v);
    }
  }

  lemma DrainKeepsProgress(cfg: RxConfig, pending: seq<Item>, sink: Sink)
    ensures SameProgress(Drain(cfg, pending, sink).stats, sink.stats)
  {
    var order := HeapOrder(ByNumber, pending);
    if order != [] {
      EmitAllKeepsProgress(cfg, order[0].number, order, sink);
    }
  }

  /** The arrival starts a new window. */
  predicate Cuts(cfg: RxConfig, used: nat, a: Arrival) {
    used + a.capLen >= cfg.pbSize
  }

  function NextWindow(cfg: RxConfig, current: seq<Item>, used: nat, a: Arrival): seq<Item> {
    if Cuts(cfg, used, a) then [a.item] else current + [a.item]
  }

  function NextUsed(cfg: RxConfig, used: nat, a: Arrival): nat {
    if Cuts(cfg, used, a) then a.capLen else used + a.capLen
  }

  function Completed(cfg: RxConfig, current: seq<Item>, used: nat, a: Arrival): seq<byte> {
    if Cuts(cfg, used, a) then WindowBytes(cfg, current) else []
  }

  /** What the windows prescribe when window `current` has been begun. */
  function Prescribed(cfg: RxConfig, current: seq<Item>, used: nat, arrivals: seq<Arrival>): seq<byte> {
    Output(cfg, Windowed(cfg.pbSize, current, used, arrivals))
  }

  lemma OutputStep(cfg: RxConfig, current: seq<Item>, used: nat, a: Arrival, later: seq<Arrival>)
    ensures Prescribed(cfg, current, used, [a] + later)
         == Completed(cfg, current, used, a)
          + Prescribed(cfg, NextWindow(cfg, current, used, a), NextUsed(cfg, used, a), later)
  {
    assert ([a] + later)[1..] == later;
  }

  lemma AppendKeeps(current: seq<Item>, item: Item)
    ensures Append(Keep(current), item) == Keep(current + [item])
  {
  }

  lemma DumpCompletes(cfg: RxConfig, s: RxState, current: seq<Item>)
    requires s.pending == Keep(current)
    ensures var d := Dump(cfg, s);
            && d.Packets() == s.Packets() && d.index == 0 && d.pending == Keep([])
            && d.sink.out == s.sink.out + WindowBytes(cfg, current)
  {
    DrainBytes(cfg, s.pending, s.sink);
    DrainKeepsProgress(cfg, s.pending, s.sink);
  }

  /** Storing a frame whose arrival is `a` when window `current` has been begun. */
  lemma StoreJoins(cfg: RxConfig, s: RxState, f: Frame, current: seq<Item>, a: Arrival)
    requires s.pending == Keep(current) && a == ArrivalOf(cfg, s.Packets(), f)
    ensures var next := Store(cfg, s, f);
            && next.Packets() == U32(s.Packets() + 1) && next.index == s.index + a.capLen
            && next.pending == Keep(current + [a.item]) && next.sink.out == s.sink.out
  {
    AppendKeeps(current, a.item);
  }

  /** What one data frame changes, in terms of the window it joins or starts. */
  lemma DataStep(cfg: RxConfig, s: RxState, f: Frame, current: seq<Item>)
    requires Classify(f) == NoControl && s.pending == Keep(current)
    ensures var next, a := Step(cfg, s, f), ArrivalOf(cfg, s.Packets(), f);
            && next.Packets() == U32(s.Packets() + 1)
            && next.index == NextUsed(cfg, s.index, a)
            && next.pending == Keep(NextWindow(cfg, current, s.index, a))
            && next.sink.out == s.sink.out + Completed(cfg, current, s.index, a)
  {
    var a := ArrivalOf(cfg, s.Packets(), f);
    if Cuts(cfg, s.index, a) {
      DumpCompletes(cfg, s, current);
      StoreJoins(cfg, Dump(cfg, s), f, [], a);
      assert [] + [a.item] == [a.item];
    } else {
      StoreJoins(cfg, s, f, current, a);
      assert s.sink.out + [] == s.sink.out;
    }
  }

  /** Everything a run and the final flush write. */
  function Written(cfg: RxConfig, s: RxState, frames: seq<Frame>): seq<byte> {
    Dump(cfg, Run(cfg, s, frames)).sink.out
  }

  /** A run from state `s` and the final flush write exactly what the windows prescribe. */
  lemma {:induction false} RunRefinesWindows(cfg: RxConfig, s: RxState, frames: seq<Frame>, current: seq<Item>)
    requires s.pending == Keep(current)
    ensures Written(cfg, s, frames)
         == s.sink.out + Prescribed(cfg, current, s.index, Arrivals(cfg, s.Packets(), frames))
    decreases frames
  {
    if frames == [] {
      DrainBytes(cfg, s.pending, s.sink);
      assert Output(cfg, [current]) == WindowBytes(cfg, current) + [];
    } else {
      var next := Step(cfg, s, frames[0]);
      if Classify(frames[0]) != NoControl {
        RunRefinesWindows(cfg, next, frames[1..], current);
      } else {
        var a := ArrivalOf(cfg, s.Packets(), frames[0]);
        DataStep(cfg, s, frames[0], current);
        RunRefinesWindows(cfg, next, frames[1..], NextWindow(cfg, current, s.index, a));
        var later := Arrivals(cfg, next.Packets(), frames[1..]);
        OutputStep(cfg, current, s.index, a, later);
        Associative(s.sink.out, Completed(cfg, current, s.index, a),
                    Prescribed(cfg, NextWindow(cfg, current, s.index, a), next.index, later));
      }
    }
  }
}
