/** How an ordered drain counts missing blocks and how many noise blocks replace them. */
module GapAccounting {
  import opened Machine
  import opened Sequences
  import opened Heap
  import opened ReceiverModel
  import opened Draining

  // ---------- Counting, modulo 2^32 ----------

  lemma WriteNoiseKeepsLost(sink: Sink, count: int, size: nat, v: byte)
    ensures WriteNoise(sink, count, size, v).stats.blocksLost == sink.stats.blocksLost
    decreases count
  {
    if count > 0 {
      WriteNoiseKeepsLost(Noise(sink, size, v), count - 1, size, v);
    }
  }

  lemma EmitLost(cfg: RxConfig, expected: int, item: Item, sink: Sink)
    requires cfg.ordered
    ensures Emit(cfg, expected, item, sink).stats.blocksLost == U32(sink.stats.blocksLost + item.number - expected)
  {
    WriteNoiseKeepsLost(sink, Missing(cfg, expected, item.number), |item.payload|, cfg.noiseValue);
    CongruentSum(sink.stats.blocksLost, Missing(cfg, expected, item.number), item.number - expected);
  }

  lemma CongruentSum(a: int, b: int, c: int)
    requires U32(b) == U32(c)
    ensures U32(a + b) == U32(a + c) && U32(a - b) == U32(a - c)
  {
    var k := b / TWO_TO_32 - c / TWO_TO_32;
    assert b == c + k * TWO_TO_32;
    assert a + b == (a + c) + k * TWO_TO_32;
    assert a - b == (a - c) - k * TWO_TO_32;
    ModShift(a + c, k);
    ModShift(a - c, -k);
  }

  lemma ModShift(a: int, k: int)
    ensures U32(a + k * TWO_TO_32) == U32(a)
  {
    var q, r := a / TWO_TO_32, a % TWO_TO_32;
    assert a + k * TWO_TO_32 == (q + k) * TWO_TO_32 + r;
  }

  /** One gap and the span behind it are the whole span. */
  lemma SpanSum(lost: int, first: int, last: int, n: int)
    ensures U32(U32(lost) + last + 1 - Int32(first + 1) - n) == U32(lost + last - first - n)
  {
    CongruentSum(last + 1 - n - Int32(first + 1), U32(lost), lost);
    CongruentSum(last + 1 - n + lost, Int32(first + 1), first + 1);
  }

  /** The counts of the single gaps telescope to a count of the whole span, whatever the numbers are. */
  lemma {:induction false} LostTelescopes(cfg: RxConfig, expected: int, items: seq<Item>, sink: Sink)
    requires cfg.ordered && items != []
    ensures EmitAll(cfg, expected, items, sink).stats.blocksLost
         == U32(sink.stats.blocksLost + items[|items| - 1].number + 1 - expected - |items|)
    decreases items
  {
    var first, rest := items[0].number, items[1..];
    var next := Emit(cfg, expected, items[0], sink);
    EmitLost(cfg, expected, items[0], sink);
    assert EmitAll(cfg, expected, items, sink) == EmitAll(cfg, Int32(first + 1), rest, next);
    if rest != [] {
      var last := items[|items| - 1].number;
      assert rest[|rest| - 1].number == last;
      LostTelescopes(cfg, Int32(first + 1), rest, next);
      SpanSum(sink.stats.blocksLost + first - expected, first, last, |rest|);
    }
  }

  lemma SortedExtremes(order: seq<Item>, it: Item)
    requires Sorted(ByNumber, order) && it in order
    ensures order[0].number <= it.number <= order[|order| - 1].number
  {
    var k :| 0 <= k < |order| && order[k] == it;
    assert k > 0 ==> !ByNumber(order[k], order[0]);
    assert k < |order| - 1 ==> !ByNumber(order[|order| - 1], order[k]);
  }

  lemma PermutationExtremes(pending: seq<Item>, order: seq<Item>)
    requires pending != [] && Sorted(ByNumber, order) && multiset(order) == multiset(pending)
    ensures order != [] && order[0] in pending && order[|order| - 1] in pending
    ensures forall it :: it in pending ==> order[0].number <= it.number <= order[|order| - 1].number
  {
    assert |multiset(order)| == |multiset(pending)|;
    SameMembers(order, pending);
    forall it | it in pending ensures order[0].number <= it.number <= order[|order| - 1].number {
      SortedExtremes(order, it);
    }
  }

  /** Least and greatest number of what a nonempty window delivers. */
  lemma OrderExtremes(pending: seq<Item>)
    requires pending != []
    ensures var order := HeapOrder(ByNumber, pending);
            && order != [] && order[0] in pending && order[|order| - 1] in pending
            && forall it :: it in pending ==> order[0].number <= it.number <= order[|order| - 1].number
  {
    HeapOrderIsSortedPermutation(ByNumber, pending);
    PermutationExtremes(pending, HeapOrder(ByNumber, pending));
  }

  /** An ordered drain of n blocks between fmin and fmax adds fmax - fmin + 1 - n to the loss counter. */
  lemma DrainCountsSpan(cfg: RxConfig, pending: seq<Item>, sink: Sink, fmin: int, fmax: int)
    requires cfg.ordered && pending != []
    requires exists it :: it in pending && it.number == fmin
    requires exists it :: it in pending && it.number == fmax
    requires forall it :: it in pending ==> fmin <= it.number <= fmax
    ensures Drain(cfg, pending, sink).stats.blocksLost
         == U32(sink.stats.blocksLost + fmax - fmin + 1 - |pending|)
  {
    var order := HeapOrder(ByNumber, pending);
    OrderExtremes(pending);
    LostTelescopes(cfg, order[0].number, order, sink);
  }

  function Least(items: seq<Item>): int
    requires items != []
  {
    if |items| == 1 || items[0].number < Least(items[1..]) then items[0].number else Least(items[1..])
  }

  function Greatest(items: seq<Item>): int
    requires items != []
  {
    if |items| == 1 || items[0].number > Greatest(items[1..]) then items[0].number else Greatest(items[1..])
  }

  lemma {:induction false} ExtremesBound(items: seq<Item>)
    requires items != []
    ensures exists it :: it in items && it.number == Least(items)
    ensures exists it :: it in items && it.number == Greatest(items)
    ensures forall it :: it in items ==> Least(items) <= it.number <= Greatest(items)
  {
    assert items[0] in items;
    if |items| > 1 {
      ExtremesBound(items[1..]);
      assert forall it :: it in items <==> it == items[0] || it in items[1..];
      var lo :| lo in items[1..] && lo.number == Least(items[1..]);
      var hi :| hi in items[1..] && hi.number == Greatest(items[1..]);
      assert lo in items && hi in items;
    }
  }

  /** What an ordered drain adds to the loss counter: the numbers it spans less the blocks it has. */
  function Span(window: seq<Item>): int {
    if window == [] then 0 else Greatest(window) + 1 - Least(window) - |window|
  }

  /** A drain starts with the least number, ends with the greatest one, and has as many blocks as are pending. */
  lemma OrderSpans(pending: seq<Item>)
    ensures |HeapOrder(ByNumber, pending)| == |pending|
    ensures var order := HeapOrder(ByNumber, pending);
            pending != [] ==> order[0].number == Least(pending) && order[|order| - 1].number == Greatest(pending)
  {
    HeapOrderIsSortedPermutation(ByNumber, pending);
    assert |multiset(HeapOrder(ByNumber, pending))| == |multiset(pending)|;
    if pending != [] {
      OrderExtremes(pending);
      ExtremesBound(pending);
    }
  }

  lemma DrainAddsSpan(cfg: RxConfig, pending: seq<Item>, sink: Sink)
    requires cfg.ordered
    ensures Drain(cfg, pending, sink).stats.blocksLost == U32(sink.stats.blocksLost + Span(pending))
  {
    var order := HeapOrder(ByNumber, pending);
    OrderSpans(pending);
    if order != [] {
      LostTelescopes(cfg, order[0].number, order, sink);
    }
  }

  // ---------- The numbers that are absent ----------

  predicate HasNumber(items: seq<Item>, number: int) {
    exists i :: 0 <= i < |items| && items[i].number == number
  }

  /** How many numbers in [lo, hi) no item carries. */
  function CountAbsent(lo: int, hi: int, items: seq<Item>): nat
    decreases hi - lo
  {
    if lo >= hi then 0
    else CountAbsent(lo, hi - 1, items) + if HasNumber(items, hi - 1) then 0 else 1
  }

  /** How many numbers from `lo` up to the last one in `items` no item carries. */
  function AbsentCount(lo: int, items: seq<Item>): nat {
    if items == [] then 0 else CountAbsent(lo, items[|items| - 1].number + 1, items)
  }

  lemma {:induction false} CountSplits(lo: int, mid: int, hi: int, items: seq<Item>)
    requires lo <= mid <= hi
    ensures CountAbsent(lo, hi, items) == CountAbsent(lo, mid, items) + CountAbsent(mid, hi, items)
    decreases hi - mid
  {
    if mid < hi {
      CountSplits(lo, mid, hi - 1, items);
    }
  }

  lemma {:induction false} CountBelowAll(lo: int, hi: int, items: seq<Item>)
    requires lo <= hi && forall i :: 0 <= i < |items| ==> hi <= items[i].number
    ensures CountAbsent(lo, hi, items) == hi - lo
    decreases hi - lo
  {
    if lo < hi {
      CountBelowAll(lo, hi - 1, items);
    }
  }

  lemma {:induction false} CountAboveFirst(lo: int, hi: int, items: seq<Item>)
    requires items != [] && items[0].number < lo
    ensures CountAbsent(lo, hi, items) == CountAbsent(lo, hi, items[1..])
    decreases hi - lo
  {
    if lo < hi {
      CountAboveFirst(lo, hi - 1, items);
      assert forall i :: 0 <= i < |items| - 1 ==> items[1..][i] == items[i + 1];
      if HasNumber(items, hi - 1) {
        var i :| 0 <= i < |items| && items[i].number == hi - 1;
        assert items[1..][i - 1].number == hi - 1;
      }
    }
  }

  lemma TailIsSorted(items: seq<Item>)
    requires items != [] && Sorted(ByNumber, items)
    ensures Sorted(ByNumber, items[1..])
    ensures forall i :: 0 <= i < |items| ==> items[0].number <= items[i].number
  {
    forall i | 0 <= i < |items| ensures items[0].number <= items[i].number {
      assert i > 0 ==> !ByNumber(items[i], items[0]);
    }
  }

  lemma AbsentStep(lo: int, items: seq<Item>)
    requires items != [] && Sorted(ByNumber, items) && lo <= items[0].number + 1
    ensures AbsentCount(lo, items)
         == (if lo <= items[0].number then items[0].number - lo else 0) + AbsentCount(items[0].number + 1, items[1..])
  {
    var n, hi := items[0].number, items[|items| - 1].number + 1;
    TailIsSorted(items);
    if lo <= n {
      CountSplits(lo, n, hi, items);
      CountSplits(n, n + 1, hi, items);
      CountBelowAll(lo, n, items);
      assert CountAbsent(n, n + 1, items) == 0 by { assert HasNumber(items, n); }
    }
    CountAboveFirst(n + 1, hi, items);
  }

  ghost predicate FrameNumbers(items: seq<Item>) {
    forall i :: 0 <= i < |items| ==> IsFrameNumber(items[i].number)
  }

  function NoiseBlocks(cfg: RxConfig, expected: int, items: seq<Item>): nat
    decreases items
  {
    if items == [] then 0
    else Gap(cfg, expected, items[0].number) + NoiseBlocks(cfg, Int32(items[0].number + 1), items[1..])
  }

  /** With noise enabled there is one noise block for every absent number, even when numbers repeat. */
  lemma {:induction false} NoiseFillsAbsentNumbers(cfg: RxConfig, expected: int, items: seq<Item>)
    requires cfg.ordered && cfg.addNoise && FrameNumbers(items) && Sorted(ByNumber, items)
    requires items != [] ==> 0 <= expected <= items[0].number + 1
    ensures NoiseBlocks(cfg, expected, items) == AbsentCount(expected, items)
    decreases items
  {
    if items != [] {
      assert IsFrameNumber(items[0].number);
      TailIsSorted(items);
      TailNumbers(items);
      NoiseFillsAbsentNumbers(cfg, items[0].number + 1, items[1..]);
      AbsentStep(expected, items);
    }
  }

  lemma TailNumbers(items: seq<Item>)
    requires items != [] && FrameNumbers(items)
    ensures FrameNumbers(items[1..])
  {
    assert forall i :: 0 <= i < |items| - 1 ==> items[1..][i] == items[i + 1];
  }

  /** How many items have a number below the next one expected: in a sorted sequence, the repeats. */
  function Repeats(lo: int, items: seq<Item>): nat
    decreases items
  {
    if items == [] then 0 else (if items[0].number < lo then 1 else 0) + Repeats(items[0].number + 1, items[1..])
  }

  /** The span of a sorted sequence less its length is the count of absent numbers less the repeats. */
  lemma {:induction false} SpanMiscountsRepeats(lo: int, order: seq<Item>)
    requires order != [] && Sorted(ByNumber, order) && lo <= order[0].number + 1
    ensures AbsentCount(lo, order) == order[|order| - 1].number + 1 - lo - |order| + Repeats(lo, order)
    decreases order
  {
    AbsentStep(lo, order);
    TailIsSorted(order);
    var rest := order[1..];
    if rest != [] {
      assert rest[|rest| - 1] == order[|order| - 1] && rest[0] == order[1];
      SpanMiscountsRepeats(order[0].number + 1, rest);
    }
  }

  /** There are fewer repeats than items, and none exactly if the numbers increase. */
  lemma {:induction false} RepeatsBound(lo: int, order: seq<Item>)
    requires order != [] && Sorted(ByNumber, order)
    ensures Repeats(lo, order) < |order| + (if order[0].number < lo then 1 else 0)
    ensures Repeats(lo, order) == 0 <==> lo <= order[0].number && Increasing(order)
    decreases order
  {
    TailIsSorted(order);
    var rest := order[1..];
    if rest != [] {
      assert forall i :: 0 <= i < |rest| ==> rest[i] == order[i + 1];
      RepeatsBound(order[0].number + 1, rest);
      if order[0].number + 1 <= rest[0].number && Increasing(rest) {
        forall i, j | 0 <= i < j < |order| ensures order[i].number < order[j].number {
          assert order[j] == rest[j - 1] && (i > 0 ==> order[i] == rest[i - 1]);
          assert rest[0].number <= rest[j - 1].number;
        }
      }
    }
  }

  lemma SortedDistinctIncreases(pending: seq<Item>, order: seq<Item>)
    requires Distinct(pending) && Sorted(ByNumber, order) && multiset(order) == multiset(pending)
    ensures Increasing(order)
  {
    var number := (it: Item) => it.number;
    MapPermutation(number, pending, order);
    NoDuplicatesPermutes(Map(number, pending), Map(number, order));
    forall i, j | 0 <= i < j < |order| ensures order[i].number < order[j].number {
      assert Map(number, order)[i] != Map(number, order)[j];
      assert !ByNumber(order[j], order[i]);
    }
  }

  // ---------- What a drain fills in ----------

  lemma {:induction false} SameMembersSameAbsence(lo: int, hi: int, a: seq<Item>, b: seq<Item>)
    requires forall x :: x in a <==> x in b
    ensures CountAbsent(lo, hi, a) == CountAbsent(lo, hi, b)
    decreases hi - lo
  {
    if lo < hi {
      SameMembersSameAbsence(lo, hi - 1, a, b);
      HasNumberByMember(a, hi - 1);
      HasNumberByMember(b, hi - 1);
    }
  }

  lemma HasNumberByMember(items: seq<Item>, number: int)
    ensures HasNumber(items, number) <==> exists it :: it in items && it.number == number
  {
    if HasNumber(items, number) {
      var i :| 0 <= i < |items| && items[i].number == number;
      assert items[i] in items;
    }
  }

  ghost predicate OfSize(size: nat, items: seq<Item>) {
    forall it :: it in items ==> |it.payload| == size
  }

  lemma {:induction false} WriteNoiseAdds(sink: Sink, count: nat, size: nat, v: byte)
    ensures WriteNoise(sink, count, size, v).stats.noiseAdded == U32(sink.stats.noiseAdded + count * size)
    decreases count
  {
    if count > 0 {
      WriteNoiseAdds(Noise(sink, size, v), count - 1, size, v);
      assert count * size == size + (count - 1) * size;
      U32Sum(sink.stats.noiseAdded + size, (count - 1) * size);
    }
  }

  lemma EmitAddsNoise(cfg: RxConfig, expected: int, item: Item, sink: Sink)
    ensures Emit(cfg, expected, item, sink).stats.noiseAdded
         == U32(sink.stats.noiseAdded + Gap(cfg, expected, item.number) * |item.payload|)
  {
    var missing := Missing(cfg, expected, item.number);
    if missing >= 0 {
      WriteNoiseAdds(sink, missing, |item.payload|, cfg.noiseValue);
    }
  }

  /** The bytes of noise in front of the blocks. */
  function NoiseSize(cfg: RxConfig, expected: int, items: seq<Item>): nat
    decreases items
  {
    if items == [] then 0
    else
      Gap(cfg, expected, items[0].number) * |items[0].payload|
      + NoiseSize(cfg, Int32(items[0].number + 1), items[1..])
  }

  lemma {:induction false} EmitAllAddsNoise(cfg: RxConfig, expected: int, items: seq<Item>, sink: Sink)
    ensures EmitAll(cfg, expected, items, sink).stats.noiseAdded
         == U32(sink.stats.noiseAdded + NoiseSize(cfg, expected, items))
    decreases items
  {
    if items != [] {
      var e, rest := Int32(items[0].number + 1), items[1..];
      EmitAddsNoise(cfg, expected, items[0], sink);
      EmitAllAddsNoise(cfg, e, rest, Emit(cfg, expected, items[0], sink));
      U32Sum(sink.stats.noiseAdded + Gap(cfg, expected, items[0].number) * |items[0].payload|, NoiseSize(cfg, e, rest));
    }
  }

  lemma {:induction false} NoiseOfSize(cfg: RxConfig, size: nat, expected: int, items: seq<Item>)
    requires OfSize(size, items)
    ensures NoiseSize(cfg, expected, items) == NoiseBlocks(cfg, expected, items) * size
    ensures |BlockBytes(cfg, expected, items)| == (NoiseBlocks(cfg, expected, items) + |items|) * size
    decreases items
  {
    if items != [] {
      var e, rest := Int32(items[0].number + 1), items[1..];
      assert items[0] in items;
      NoiseOfSize(cfg, size, e, rest);
      RepeatedLength(Gap(cfg, expected, items[0].number), Fill(size, cfg.noiseValue));
      SumTimes(Gap(cfg, expected, items[0].number), NoiseBlocks(cfg, e, rest), |rest|, size);
    }
  }

  lemma SumTimes(gap: nat, later: nat, n: nat, size: nat)
    ensures (gap + later) * size == gap * size + later * size
    ensures (gap + later + (n + 1)) * size == gap * size + size + (later + n) * size
  {
  }

  lemma PermutationKeepsNumbers(pending: seq<Item>, order: seq<Item>)
    requires multiset(order) == multiset(pending) && FrameNumbers(pending)
    ensures FrameNumbers(order)
  {
    SameMembers(order, pending);
    forall i | 0 <= i < |order| ensures IsFrameNumber(order[i].number) {
      assert order[i] in pending;
    }
  }

  lemma PermutationKeepsAbsence(pending: seq<Item>, order: seq<Item>)
    requires multiset(order) == multiset(pending) && pending != [] && order != []
    requires order[0].number == Least(pending) && order[|order| - 1].number == Greatest(pending)
    ensures AbsentCount(order[0].number, order) == CountAbsent(Least(pending), Greatest(pending) + 1, pending)
  {
    SameMembers(order, pending);
    SameMembersSameAbsence(Least(pending), Greatest(pending) + 1, order, pending);
  }

  /** A drain writes a sorted permutation of what is pending, from the least number to the greatest. */
  lemma DrainOrder(cfg: RxConfig, pending: seq<Item>, sink: Sink) returns (order: seq<Item>)
    ensures Drain(cfg, pending, sink) == EmitWindow(cfg, order, sink)
    ensures Sorted(ByNumber, order) && multiset(order) == multiset(pending) && |order| == |pending|
    ensures pending != [] ==> order[0].number == Least(pending) && order[|order| - 1].number == Greatest(pending)
  {
    order := HeapOrder(ByNumber, pending);
    HeapOrderIsSortedPermutation(ByNumber, pending);
    OrderSpans(pending);
  }

  lemma PermutationKeepsDistinct(pending: seq<Item>, order: seq<Item>)
    requires Sorted(ByNumber, order) && multiset(order) == multiset(pending)
    ensures Increasing(order) <==> Distinct(pending)
  {
    if Distinct(pending) {
      SortedDistinctIncreases(pending, order);
    }
    if Increasing(order) {
      var number := (it: Item) => it.number;
      MapPermutation(number, order, pending);
      NoDuplicatesPermutes(Map(number, order), Map(number, pending));
      forall i, j | 0 <= i < j < |pending| ensures pending[i].number != pending[j].number {
        assert Map(number, pending)[i] != Map(number, pending)[j];
      }
    }
  }

  lemma CountDiffers(count: uint32, lost: int, absent: int, repeats: nat)
    requires repeats < TWO_TO_32 && count == U32(lost + absent - repeats)
    ensures count == U32(lost + absent) <==> repeats == 0
  {
  }

  /**
   An ordered drain adds the absent numbers less the repeats to the loss counter; so it counts exactly
   the numbers that are absent from its span if no number repeats, and only then.
   */
  lemma DrainCountsAbsentNumbers(cfg: RxConfig, pending: seq<Item>, sink: Sink, absent: nat, count: uint32)
    returns (repeats: nat)
    requires cfg.ordered && pending != []
    requires absent == CountAbsent(Least(pending), Greatest(pending) + 1, pending)
    requires count == Drain(cfg, pending, sink).stats.blocksLost
    ensures repeats < |pending| && (repeats == 0 <==> Distinct(pending))
    ensures count == U32(sink.stats.blocksLost + absent - repeats)
    ensures |pending| < TWO_TO_32 ==> (count == U32(sink.stats.blocksLost + absent) <==> Distinct(pending))
  {
    var order := DrainOrder(cfg, pending, sink);
    repeats := Repeats(order[0].number, order);
    PermutationKeepsAbsence(pending, order);
    PermutationKeepsDistinct(pending, order);
    OrderCounts(cfg, order, sink, absent, repeats, count);
    if repeats < TWO_TO_32 {
      CountDiffers(count, sink.stats.blocksLost, absent, repeats);
    }
  }

  lemma OrderCounts(cfg: RxConfig, order: seq<Item>, sink: Sink, absent: nat, repeats: nat, count: uint32)
    requires cfg.ordered && order != [] && Sorted(ByNumber, order)
    requires absent == AbsentCount(order[0].number, order) && repeats == Repeats(order[0].number, order)
    requires count == EmitWindow(cfg, order, sink).stats.blocksLost
    ensures repeats < |order| && (repeats == 0 <==> Increasing(order))
    ensures count == U32(sink.stats.blocksLost + absent - repeats)
  {
    var span := order[|order| - 1].number + 1 - order[0].number - |order|;
    SpanMiscountsRepeats(order[0].number, order);
    RepeatsBound(order[0].number, order);
    OrderCountsSpan(cfg, order, sink, span, count);
  }

  lemma OrderCountsSpan(cfg: RxConfig, order: seq<Item>, sink: Sink, span: int, count: uint32)
    requires cfg.ordered && order != [] && span == order[|order| - 1].number + 1 - order[0].number - |order|
    requires count == EmitWindow(cfg, order, sink).stats.blocksLost
    ensures count == U32(sink.stats.blocksLost + span)
  {
    LostTelescopes(cfg, order[0].number, order, sink);
  }

  /** The same number twice: nothing is absent, but the counter goes down by one. */
  lemma RepeatedNumberIsMiscounted(cfg: RxConfig, payload: seq<byte>, sink: Sink)
    requires cfg.ordered
    ensures CountAbsent(5, 5 + 1, [Item(5, payload), Item(5, payload)]) == 0
    ensures Drain(cfg, [Item(5, payload), Item(5, payload)], sink).stats.blocksLost == U32(sink.stats.blocksLost - 1)
  {
    var pending := [Item(5, payload), Item(5, payload)];
    assert HasNumber(pending, 5) by { assert pending[0].number == 5; }
    assert CountAbsent(5, 5, pending) == 0;
    assert pending[0] in pending;
    DrainCountsSpan(cfg, pending, sink, 5, 5);
  }

  /** `blocks` blocks and `absent` noise blocks have gone out between the two. */
  predicate Filled(before: Sink, after: Sink, absent: nat, blocks: nat, size: nat) {
    && after.stats.noiseAdded == U32(before.stats.noiseAdded + absent * size)
    && |after.out| == |before.out| + (absent + blocks) * size
  }

  lemma OrderFillsAbsentNumbers(cfg: RxConfig, size: nat, order: seq<Item>, sink: Sink, absent: nat)
    requires cfg.ordered && cfg.addNoise && order != [] && absent == AbsentCount(order[0].number, order)
    requires FrameNumbers(order) && Sorted(ByNumber, order) && OfSize(size, order)
    ensures Filled(sink, EmitWindow(cfg, order, sink), absent, |order|, size)
  {
    NoiseFillsAbsentNumbers(cfg, order[0].number, order);
    EmitAllAddsNoise(cfg, order[0].number, order, sink);
    NoiseOfSize(cfg, size, order[0].number, order);
    EmitAllBytes(cfg, order[0].number, order, sink);
  }

  /**
   A drain with noise adds one noise block for every number that is absent between the least and the
   greatest one, even when numbers repeat: in the counter and in the output.
   */
  lemma DrainFillsAbsentNumbers(cfg: RxConfig, size: nat, pending: seq<Item>, sink: Sink, absent: nat)
    requires cfg.ordered && cfg.addNoise && pending != [] && FrameNumbers(pending) && OfSize(size, pending)
    requires absent == CountAbsent(Least(pending), Greatest(pending) + 1, pending)
    ensures Filled(sink, Drain(cfg, pending, sink), absent, |pending|, size)
  {
    var order := DrainOrder(cfg, pending, sink);
    PermutationKeepsNumbers(pending, order);
    SameMembers(order, pending);
    PermutationKeepsAbsence(pending, order);
    OrderFillsAbsentNumbers(cfg, size, order, sink, absent);
  }
}
