/** What a whole ordered capture counts as lost: the gaps inside its windows, not those between them. */
module LossAccounting {
  import opened Machine
  import opened Sequences
  import opened Wire
  import opened ReceiverModel
  import opened Draining
  import opened Windows
  import opened Delivery
  import opened GapAccounting

  /** The spans of the windows less the blocks they have. */
  function Losses(windows: seq<seq<Item>>): int {
    if windows == [] then 0 else Span(Keep(windows[0])) + Losses(windows[1..])
  }

  /** The loss counter after a run and the final flush. */
  function LossCount(cfg: RxConfig, s: RxState, frames: seq<Frame>): uint32 {
    Dump(cfg, Run(cfg, s, frames)).sink.stats.blocksLost
  }

  /** What the windows lose when window `current` has been begun. */
  function ToLose(cfg: RxConfig, current: seq<Item>, used: nat, arrivals: seq<Arrival>): int {
    Losses(Windowed(cfg.pbSize, current, used, arrivals))
  }

  /** What the window that the arrival completes loses. */
  function Completes(cfg: RxConfig, current: seq<Item>, used: nat, a: Arrival): int {
    if Cuts(cfg, used, a) then Span(Keep(current)) else 0
  }

  /** The counter goes from `before` to `after` when `losses` more blocks are lost. */
  ghost predicate Adds(before: uint32, after: uint32, losses: int) {
    after == U32(before + losses)
  }

  lemma AddsOn(before: uint32, middle: uint32, after: uint32, done: int, left: int)
    requires Adds(before, middle, done) && Adds(middle, after, left)
    ensures Adds(before, after, done + left)
  {
    U32Sum(before + done, left);
  }

  lemma DataStepLost(cfg: RxConfig, s: RxState, f: Frame, current: seq<Item>, done: int)
    requires cfg.ordered && Classify(f) == NoControl && s.pending == Keep(current)
    requires done == Completes(cfg, current, s.index, ArrivalOf(cfg, s.Packets(), f))
    ensures Adds(s.sink.stats.blocksLost, Step(cfg, s, f).sink.stats.blocksLost, done)
  {
    if Cuts(cfg, s.index, ArrivalOf(cfg, s.Packets(), f)) {
      DumpAdds(cfg, s, done);
      StoreLosesNothing(cfg, Dump(cfg, s), f);
      assert Step(cfg, s, f) == Store(cfg, Dump(cfg, s), f);
    } else {
      StoreLosesNothing(cfg, s, f);
      assert Step(cfg, s, f) == Store(cfg, s, f);
    }
  }

  lemma DumpAdds(cfg: RxConfig, s: RxState, span: int)
    requires cfg.ordered && span == Span(s.pending)
    ensures Adds(s.sink.stats.blocksLost, Dump(cfg, s).sink.stats.blocksLost, span)
  {
    DrainAddsSpan(cfg, s.pending, s.sink);
  }

  lemma StoreLosesNothing(cfg: RxConfig, s: RxState, f: Frame)
    ensures Store(cfg, s, f).sink.stats.blocksLost == s.sink.stats.blocksLost
  {
  }

  lemma LossesStep(cfg: RxConfig, current: seq<Item>, used: nat, a: Arrival, later: seq<Arrival>)
    ensures ToLose(cfg, current, used, [a] + later)
         == Completes(cfg, current, used, a)
          + ToLose(cfg, NextWindow(cfg, current, used, a), NextUsed(cfg, used, a), later)
  {
    assert ([a] + later)[1..] == later;
  }

  lemma FlushCountsLosses(cfg: RxConfig, s: RxState, current: seq<Item>, losses: int)
    requires cfg.ordered && s.pending == Keep(current) && losses == ToLose(cfg, current, s.index, [])
    ensures Adds(s.sink.stats.blocksLost, LossCount(cfg, s, []), losses)
  {
    assert Losses([current]) == Span(Keep(current)) + 0;
    DumpAdds(cfg, s, losses);
  }

  /** One data frame splits what is to be lost into what its window completes and what is left. */
  lemma DataSplitsLosses(cfg: RxConfig, s: RxState, f: Frame, rest: seq<Frame>, current: seq<Item>, losses: int)
    returns (window: seq<Item>, done: int, left: int)
    requires cfg.ordered && Classify(f) == NoControl && s.pending == Keep(current)
    requires losses == ToLose(cfg, current, s.index, Arrivals(cfg, s.Packets(), [f] + rest))
    ensures var next := Step(cfg, s, f);
            && next.pending == Keep(window)
            && left == ToLose(cfg, window, next.index, Arrivals(cfg, next.Packets(), rest))
            && Adds(s.sink.stats.blocksLost, next.sink.stats.blocksLost, done) && losses == done + left
  {
    var a, later := ArrivalOf(cfg, s.Packets(), f), Arrivals(cfg, U32(s.Packets() + 1), rest);
    assert ([f] + rest)[1..] == rest;
    window, done := NextWindow(cfg, current, s.index, a), Completes(cfg, current, s.index, a);
    left := ToLose(cfg, window, NextUsed(cfg, s.index, a), later);
    DataStep(cfg, s, f, current);
    DataStepLost(cfg, s, f, current, done);
    LossesStep(cfg, current, s.index, a, later);
  }

  lemma LossCountStep(cfg: RxConfig, s: RxState, f: Frame, rest: seq<Frame>)
    ensures LossCount(cfg, s, [f] + rest) == LossCount(cfg, Step(cfg, s, f), rest)
    ensures Classify(f) != NoControl ==> Step(cfg, s, f).sink.stats.blocksLost == s.sink.stats.blocksLost
  {
    assert ([f] + rest)[1..] == rest;
  }

  /** From any state a run counts what the windows to come lose, modulo 2^32. */
  lemma {:induction false} RunCountsLosses(cfg: RxConfig, s: RxState, frames: seq<Frame>, current: seq<Item>,
                                           losses: int, before: uint32, after: uint32)
    requires cfg.ordered && s.pending == Keep(current) && before == s.sink.stats.blocksLost
    requires losses == ToLose(cfg, current, s.index, Arrivals(cfg, s.Packets(), frames))
    requires after == LossCount(cfg, s, frames)
    ensures Adds(before, after, losses)
    decreases frames
  {
    if frames == [] {
      FlushCountsLosses(cfg, s, current, losses);
    } else {
      var f, rest := frames[0], frames[1..];
      var next := Step(cfg, s, f);
      assert frames == [f] + rest;
      LossCountStep(cfg, s, f, rest);
      if Classify(f) != NoControl {
        RunCountsLosses(cfg, next, rest, current, losses, before, after);
      } else {
        var window, done, left := DataSplitsLosses(cfg, s, f, rest, current, losses);
        var middle := next.sink.stats.blocksLost;
        RunCountsLosses(cfg, next, rest, window, left, middle, after);
        AddsOn(before, middle, after, done, left);
      }
    }
  }

  /** A capture counts what its windows lose. */
  lemma CaptureCountsLosses(cfg: RxConfig, frames: seq<Frame>, losses: int)
    requires cfg.ordered && losses == Losses(WindowsOf(cfg, frames))
    ensures LossCount(cfg, INIT, frames) == U32(losses)
  {
    RunCountsLosses(cfg, INIT, frames, [], losses, 0, LossCount(cfg, INIT, frames));
  }

  // ---------- Windows in order ----------

  ghost predicate NoneEmpty(windows: seq<seq<Item>>) {
    forall k :: 0 <= k < |windows| ==> windows[k] != []
  }

  /** Every window begins one after the last number of the window before it. */
  ghost predicate Joined(windows: seq<seq<Item>>)
    requires NoneEmpty(windows)
  {
    forall k :: 0 < k < |windows| ==> windows[k][0].number == windows[k - 1][|windows[k - 1]| - 1].number + 1
  }

  lemma JoinedStep(windows: seq<seq<Item>>)
    requires NoneEmpty(windows) && |windows| > 1
    ensures NoneEmpty(windows[1..])
    ensures Joined(windows) <==>
            windows[1][0].number == windows[0][|windows[0]| - 1].number + 1 && Joined(windows[1..])
  {
    var rest := windows[1..];
    assert forall k :: 0 <= k < |rest| ==> rest[k] == windows[k + 1];
    if Joined(windows) {
      forall k | 0 < k < |rest| ensures rest[k][0].number == rest[k - 1][|rest[k - 1]| - 1].number + 1 {
        assert windows[k + 1][0].number == windows[k][|windows[k]| - 1].number + 1;
      }
    }
  }

  lemma {:induction false} IncreasingSpan(w: seq<Item>)
    requires w != [] && Increasing(w)
    ensures Least(w) == w[0].number && Greatest(w) == w[|w| - 1].number
    ensures w[0].number + |w| - 1 <= w[|w| - 1].number
  {
    if |w| > 1 {
      var rest := w[1..];
      assert forall i :: 0 <= i < |rest| ==> rest[i] == w[i + 1];
      IncreasingSpan(rest);
    }
  }

  /** Two parts in increasing order: the span of the whole counts the gap between them as well. */
  lemma SpanSplits(a: seq<Item>, b: seq<Item>)
    requires Increasing(a + b) && a != [] && b != []
    ensures Increasing(a) && Increasing(b) && a[|a| - 1].number < b[0].number
    ensures Span(a + b) == Span(a) + Span(b) + (b[0].number - a[|a| - 1].number - 1)
  {
    var all := a + b;
    assert forall i :: 0 <= i < |a| ==> a[i] == all[i];
    assert forall i :: 0 <= i < |b| ==> b[i] == all[|a| + i];
    IncreasingSpan(all);
    IncreasingSpan(a);
    IncreasingSpan(b);
  }

  lemma FirstOfConcat(windows: seq<seq<Item>>)
    requires windows != [] && windows[0] != []
    ensures Concat(windows) != [] && Concat(windows)[0] == windows[0][0]
  {
  }

  /** Windows in increasing order lose what the whole span loses, less the gaps between them. */
  lemma {:induction false} LossesInOrder(windows: seq<seq<Item>>)
    requires windows != [] && NoneEmpty(windows) && AllFitHeap(windows) && Increasing(Concat(windows))
    ensures 0 <= Losses(windows) <= Span(Concat(windows))
    ensures Losses(windows) == Span(Concat(windows)) <==> Joined(windows)
  {
    var w, rest := windows[0], windows[1..];
    assert w in windows && Keep(w) == w;
    FirstOfConcat(windows);
    if rest == [] {
      assert Concat(windows) == w + [] == w;
      IncreasingSpan(w);
    } else {
      JoinedStep(windows);
      FirstOfConcat(rest);
      SpanSplits(w, Concat(rest));
      IncreasingSpan(w);
      LossesInOrder(rest);
    }
  }

  // ---------- Captures in order ----------

  lemma {:induction false} NoneEmptyWindows(pbSize: nat, current: seq<Item>, used: nat, arrivals: seq<Arrival>)
    requires current != []
    ensures NoneEmpty(Windowed(pbSize, current, used, arrivals))
    decreases arrivals
  {
    if arrivals != [] {
      var a := arrivals[0];
      if used + a.capLen >= pbSize {
        NoneEmptyWindows(pbSize, [a.item], a.capLen, arrivals[1..]);
      } else {
        NoneEmptyWindows(pbSize, current + [a.item], used + a.capLen, arrivals[1..]);
      }
    }
  }

  /** The windows that hold data: the first one is empty if the first frame does not fit into it. */
  function Begun(windows: seq<seq<Item>>): seq<seq<Item>> {
    if windows != [] && windows[0] == [] then windows[1..] else windows
  }

  lemma BegunWindows(cfg: RxConfig, frames: seq<Frame>)
    requires Arrivals(cfg, 0, frames) != [] && AllFitHeap(WindowsOf(cfg, frames))
    ensures var ws := Begun(WindowsOf(cfg, frames));
            && ws != [] && NoneEmpty(ws) && AllFitHeap(ws)
            && Concat(ws) == Items(Arrivals(cfg, 0, frames)) && Losses(ws) == Losses(WindowsOf(cfg, frames))
  {
    var arrivals := Arrivals(cfg, 0, frames);
    var a, all := arrivals[0], WindowsOf(cfg, frames);
    NoneEmptyWindows(cfg.pbSize, [a.item], a.capLen, arrivals[1..]);
    WindowsCoverArrivals(cfg.pbSize, [], 0, arrivals);
    assert [] + [a.item] == [a.item] && [] + Items(arrivals) == Items(arrivals);
    if a.capLen >= cfg.pbSize {
      assert all == [[]] + Windowed(cfg.pbSize, [a.item], a.capLen, arrivals[1..]);
      assert Keep([]) == [];
    } else {
      assert all == Windowed(cfg.pbSize, [a.item], a.capLen, arrivals[1..]);
      assert all[0] != [];
    }
    assert forall w :: w in Begun(all) ==> w in all;
  }

  lemma {:induction false} KeysAreInt32(cfg: RxConfig, packets: uint32, frames: seq<Frame>)
    ensures forall it :: it in Items(Arrivals(cfg, packets, frames)) ==> -0x8000_0000 <= it.number < 0x8000_0000
    decreases frames
  {
    if frames != [] {
      KeysAreInt32(cfg, if Classify(frames[0]) == NoControl then U32(packets + 1) else packets, frames[1..]);
    }
  }

  lemma SmallCount(count: uint32, losses: int, span: int)
    requires count == U32(losses) && 0 <= losses <= span < TWO_TO_32
    ensures count == span <==> losses == span
  {
  }

  /**
   For distinct numbers in order of arrival, a capture counts all numbers that are absent from its
   span exactly if every window begins one after the last number of the window before it. What is
   lost at the start of a later window is never counted.
   */
  lemma LossCountIsExact(cfg: RxConfig, frames: seq<Frame>, items: seq<Item>, absent: int)
    requires cfg.ordered && AllFitHeap(WindowsOf(cfg, frames))
    requires items == Items(Arrivals(cfg, 0, frames)) && items != [] && Increasing(items)
    requires absent == items[|items| - 1].number - items[0].number + 1 - |items|
    ensures NoneEmpty(Begun(WindowsOf(cfg, frames)))
    ensures LossCount(cfg, INIT, frames) == absent <==> Joined(Begun(WindowsOf(cfg, frames)))
  {
    var windows := Begun(WindowsOf(cfg, frames));
    BegunWindows(cfg, frames);
    LossesInOrder(windows);
    AbsentIsSpan(cfg, frames, items, absent);
    CaptureCountsLosses(cfg, frames, Losses(windows));
    SmallCount(LossCount(cfg, INIT, frames), Losses(windows), absent);
  }

  lemma AbsentIsSpan(cfg: RxConfig, frames: seq<Frame>, items: seq<Item>, absent: int)
    requires items == Items(Arrivals(cfg, 0, frames)) && items != [] && Increasing(items)
    requires absent == items[|items| - 1].number - items[0].number + 1 - |items|
    ensures absent == Span(items) && 0 <= absent < TWO_TO_32
  {
    IncreasingSpan(items);
    KeysAreInt32(cfg, 0, frames);
    assert items[0] in items && items[|items| - 1] in items;
  }

  /** Frame 1 is lost between two windows: it is neither counted nor filled with noise. */
  lemma LossBetweenWindowsIsMissed(noise: byte)
    ensures var cfg := RxConfig(true, true, noise, MTU);
            var a, b := PlainFrame(0, Fill(BLOCK_SIZE_MAX, 1)), PlainFrame(2, Fill(BLOCK_SIZE_MAX, 2));
            && LossCount(cfg, INIT, [a, b]) == 0
            && RunOutput(cfg, [a, b]) == Fill(BLOCK_SIZE_MAX, 1) + Fill(BLOCK_SIZE_MAX, 2)
  {
    var cfg := RxConfig(true, true, noise, MTU);
    var a, b := PlainFrame(0, Fill(BLOCK_SIZE_MAX, 1)), PlainFrame(2, Fill(BLOCK_SIZE_MAX, 2));
    TwoWindows(cfg, a, b);
  }

  /** Two data frames that do not fit the packet buffer together. */
  lemma TwoWindows(cfg: RxConfig, a: Frame, b: Frame)
    requires cfg.ordered && Classify(a) == NoControl && Classify(b) == NoControl
    requires |a| < cfg.pbSize <= |a| + |b|
    ensures LossCount(cfg, INIT, [a, b]) == 0
    ensures RunOutput(cfg, [a, b]) == Payload(a) + Payload(b)
  {
    var x, y := ArrivalOf(cfg, 0, a), ArrivalOf(cfg, 1, b);
    TwoArrivals(cfg, a, b, x, y);
    TwoItems(cfg, x.item, y.item);
    CaptureCountsLosses(cfg, [a, b], 0);
    CaptureIsWindowedSort(cfg, [a, b]);
  }

  lemma TwoItems(cfg: RxConfig, x: Item, y: Item)
    ensures Losses([[x], [y]]) == 0 && Output(cfg, [[x], [y]]) == x.payload + y.payload
  {
    var windows := [[x], [y]];
    OneItem(cfg, x);
    OneItem(cfg, y);
    assert windows[1..] == [[y]] && windows[1..][1..] == [];
    assert Losses(windows[1..]) == 0;
    assert Output(cfg, windows[1..]) == y.payload + [];
  }

  lemma TwoArrivals(cfg: RxConfig, a: Frame, b: Frame, x: Arrival, y: Arrival)
    requires Classify(a) == NoControl && Classify(b) == NoControl && |a| < cfg.pbSize <= |a| + |b|
    requires x == ArrivalOf(cfg, 0, a) && y == ArrivalOf(cfg, 1, b)
    ensures WindowsOf(cfg, [a, b]) == [[x.item], [y.item]]
  {
    assert [a, b][1..] == [b] && [b][1..] == [];
    assert Arrivals(cfg, 2, []) == [];
    assert Arrivals(cfg, 1, [b]) == [y] + [] == [y];
    assert Arrivals(cfg, 0, [a, b]) == [x] + [y] == [x, y];
    assert [x, y][1..] == [y] && [y][1..] == [];
    assert Windowed(cfg.pbSize, [y.item], y.capLen, []) == [[y.item]];
    assert Windowed(cfg.pbSize, [x.item], x.capLen, [y]) == [[x.item]] + [[y.item]];
    assert [] + [x.item] == [x.item];
  }

  lemma OneItem(cfg: RxConfig, it: Item)
    ensures WindowBytes(cfg, [it]) == it.payload && Span(Keep([it])) == 0
  {
    IncreasingDrainOrder([it]);
    assert [it][1..] == [];
    NoGapBytes(cfg, it.number, [it]);
    assert it.payload + [] == it.payload;
  }
}
