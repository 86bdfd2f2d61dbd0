/** Where an ordered drain with noise puts every block. */
module NoisePlacement {
  import opened Machine
  import opened Sequences
  import opened Heap
  import opened ReceiverModel
  import opened Draining
  import opened GapAccounting

  /**
   All payloads have the block size; a shorter last one is allowed when nothing is missing just
   before it, because noise takes the size of the block behind the gap.
   */
  predicate Uniform(blockSize: nat, expected: int, items: seq<Item>)
    decreases items
  {
    items != [] ==>
      && IsFrameNumber(items[0].number) && 0 <= expected <= items[0].number
      && (|items[0].payload| == blockSize ||
          (|items| == 1 && |items[0].payload| < blockSize && expected == items[0].number))
      && Uniform(blockSize, items[0].number + 1, items[1..])
  }

  /** One slot for every number from `expected` on: the payload that carries it, or noise. */
  function Slots(v: byte, blockSize: nat, expected: int, items: seq<Item>): seq<seq<byte>>
    requires Uniform(blockSize, expected, items)
    decreases items
  {
    if items == [] then []
    else
      Fill(items[0].number - expected, Fill(blockSize, v)) + [items[0].payload]
      + Slots(v, blockSize, items[0].number + 1, items[1..])
  }

  lemma SlotBytes(v: byte, blockSize: nat, expected: int, items: seq<Item>)
    requires Uniform(blockSize, expected, items) && items != []
    ensures Concat(Slots(v, blockSize, expected, items))
         == Concat(Fill(items[0].number - expected, Fill(blockSize, v))) + items[0].payload
          + Concat(Slots(v, blockSize, items[0].number + 1, items[1..]))
  {
    var noise := Fill(items[0].number - expected, Fill(blockSize, v));
    ConcatAppend(noise + [items[0].payload], Slots(v, blockSize, items[0].number + 1, items[1..]));
    ConcatAppend(noise, [items[0].payload]);
    assert Concat([items[0].payload]) == items[0].payload + [];
  }

  /** A drain writes the slots one after the other. */
  lemma {:induction false} SlotsAreWritten(cfg: RxConfig, blockSize: nat, expected: int, items: seq<Item>)
    requires cfg.ordered && cfg.addNoise && Uniform(blockSize, expected, items)
    ensures BlockBytes(cfg, expected, items) == Concat(Slots(cfg.noiseValue, blockSize, expected, items))
    decreases items
  {
    if items != [] {
      assert Int32(items[0].number + 1) == items[0].number + 1;
      SlotsAreWritten(cfg, blockSize, items[0].number + 1, items[1..]);
      GapBytes(cfg, blockSize, expected, items);
      SlotBytes(cfg.noiseValue, blockSize, expected, items);
    }
  }

  lemma GapBytes(cfg: RxConfig, blockSize: nat, expected: int, items: seq<Item>)
    requires cfg.ordered && cfg.addNoise && items != [] && Uniform(blockSize, expected, items)
    ensures NoiseBytes(cfg, expected, items[0])
         == Concat(Fill(items[0].number - expected, Fill(blockSize, cfg.noiseValue)))
  {
    if |items[0].payload| != blockSize {
      assert items[0].number - expected == 0;
    }
  }

  ghost predicate SlotHolds(v: byte, blockSize: nat, items: seq<Item>, number: int, slot: seq<byte>) {
    && (forall i :: 0 <= i < |items| && items[i].number == number ==> slot == items[i].payload)
    && (!HasNumber(items, number) ==> slot == Fill(blockSize, v))
  }

  lemma UniformIncreases(blockSize: nat, expected: int, items: seq<Item>)
    requires Uniform(blockSize, expected, items)
    ensures forall i :: 0 <= i < |items| ==> expected <= items[i].number
    decreases items
  {
    if items != [] {
      UniformIncreases(blockSize, items[0].number + 1, items[1..]);
      assert forall i :: 0 < i < |items| ==> items[i] == items[1..][i - 1];
    }
  }

  lemma SlotsSplit(v: byte, blockSize: nat, expected: int, items: seq<Item>, number: int)
    requires Uniform(blockSize, expected, items) && items != [] && expected <= number
    ensures var slots, tail, n := Slots(v, blockSize, expected, items),
                                  Slots(v, blockSize, items[0].number + 1, items[1..]), items[0].number;
            && |slots| == n - expected + 1 + |tail|
            && (number < n ==> slots[number - expected] == Fill(blockSize, v))
            && (number == n ==> slots[number - expected] == items[0].payload)
            && (n < number < n + 1 + |tail| ==> slots[number - expected] == tail[number - n - 1])
  {
  }

  lemma HasNumberTail(blockSize: nat, expected: int, items: seq<Item>, number: int)
    requires Uniform(blockSize, expected, items) && items != []
    ensures HasNumber(items, number) <==> number == items[0].number || HasNumber(items[1..], number)
    ensures forall i :: 0 < i < |items| ==> items[i] == items[1..][i - 1] && items[0].number < items[i].number
  {
    UniformIncreases(blockSize, items[0].number + 1, items[1..]);
    assert forall i :: 0 < i < |items| ==> items[i] == items[1..][i - 1];
    assert items[0].number == number ==> HasNumber(items, number);
    if HasNumber(items[1..], number) {
      var i :| 0 <= i < |items| - 1 && items[1..][i].number == number;
      assert items[i + 1].number == number;
    }
  }

  /** Slot `number - expected` holds what belongs to `number`, and all slots but the last are full. */
  lemma {:induction false} SlotLookup(v: byte, blockSize: nat, expected: int, items: seq<Item>, number: int)
    requires Uniform(blockSize, expected, items) && items != []
    requires expected <= number <= items[|items| - 1].number
    ensures var slots := Slots(v, blockSize, expected, items);
            && |slots| == items[|items| - 1].number + 1 - expected
            && SlotHolds(v, blockSize, items, number, slots[number - expected])
            && (number < items[|items| - 1].number ==> |slots[number - expected]| == blockSize)
    decreases items
  {
    var n, rest := items[0].number, items[1..];
    SlotsSplit(v, blockSize, expected, items, number);
    HasNumberTail(blockSize, expected, items, number);
    if rest != [] {
      assert rest[|rest| - 1] == items[|items| - 1];
      SlotLookup(v, blockSize, n + 1, rest, if number <= n then items[|items| - 1].number else number);
    }
    if number < n {
      UniformIncreases(blockSize, n, items);
    }
  }

  lemma SlotsAreFull(v: byte, blockSize: nat, expected: int, items: seq<Item>)
    requires Uniform(blockSize, expected, items) && items != []
    ensures var slots := Slots(v, blockSize, expected, items);
            forall j :: 0 <= j < |slots| - 1 ==> |slots[j]| == blockSize
  {
    var slots := Slots(v, blockSize, expected, items);
    UniformIncreases(blockSize, expected, items);
    SlotLookup(v, blockSize, expected, items, items[|items| - 1].number);
    forall j | 0 <= j < |slots| - 1 ensures |slots[j]| == blockSize {
      SlotLookup(v, blockSize, expected, items, expected + j);
    }
  }

  predicate HoldsAt(bytes: seq<byte>, at: int, part: seq<byte>) {
    0 <= at && at + |part| <= |bytes| && bytes[at..at + |part|] == part
  }

  lemma SlotHasPlace(slots: seq<seq<byte>>, blockSize: nat, k: nat)
    requires k < |slots| && forall j :: 0 <= j < k ==> |slots[j]| == blockSize
    ensures HoldsAt(Concat(slots), k * blockSize, slots[k])
  {
    ConcatOffset(slots, blockSize, k);
  }

  lemma SlotInBytes(cfg: RxConfig, blockSize: nat, order: seq<Item>, number: int) returns (slot: seq<byte>)
    requires cfg.ordered && cfg.addNoise && order != [] && Uniform(blockSize, order[0].number, order)
    requires order[0].number <= number <= order[|order| - 1].number
    ensures SlotHolds(cfg.noiseValue, blockSize, order, number, slot)
    ensures HoldsAt(OrderBytes(cfg, order), (number - order[0].number) * blockSize, slot)
  {
    var lo := order[0].number;
    var slots := Slots(cfg.noiseValue, blockSize, lo, order);
    SlotLookup(cfg.noiseValue, blockSize, lo, order, number);
    SlotsAreFull(cfg.noiseValue, blockSize, lo, order);
    slot := slots[number - lo];
    SlotsAreWritten(cfg, blockSize, lo, order);
    SlotHasPlace(slots, blockSize, number - lo);
  }

  /** `number` has its place in the bytes: its payload, or noise if no item carries it. */
  ghost predicate Placed(bytes: seq<byte>, v: byte, blockSize: nat, first: int, items: seq<Item>, number: int) {
    && (forall it :: it in items && it.number == number ==> HoldsAt(bytes, (number - first) * blockSize, it.payload))
    && (!HasNumber(items, number) ==> HoldsAt(bytes, (number - first) * blockSize, Fill(blockSize, v)))
  }

  lemma SlotIsPlaced(bytes: seq<byte>, v: byte, blockSize: nat, first: int, items: seq<Item>, number: int,
                     slot: seq<byte>)
    requires HoldsAt(bytes, (number - first) * blockSize, slot) && SlotHolds(v, blockSize, items, number, slot)
    ensures Placed(bytes, v, blockSize, first, items, number)
  {
  }

  /** In order: the slot of every number, at its place. */
  lemma OrderKeepsPositions(cfg: RxConfig, blockSize: nat, order: seq<Item>, number: int)
    requires cfg.ordered && cfg.addNoise && order != [] && Uniform(blockSize, order[0].number, order)
    requires order[0].number <= number <= order[|order| - 1].number
    ensures Placed(OrderBytes(cfg, order), cfg.noiseValue, blockSize, order[0].number, order, number)
  {
    var slot := SlotInBytes(cfg, blockSize, order, number);
    SlotIsPlaced(OrderBytes(cfg, order), cfg.noiseValue, blockSize, order[0].number, order, number, slot);
  }

  // ---------- A drain ----------

  /** Full blocks; the one with the greatest number may be shorter if nothing is missing just before it. */
  ghost predicate InBlocks(blockSize: nat, pending: seq<Item>)
    requires pending != []
  {
    forall it :: it in pending ==>
      |it.payload| == blockSize ||
      (|it.payload| < blockSize && it.number == Greatest(pending) &&
       (it.number == Least(pending) || HasNumber(pending, it.number - 1)))
  }

  /** Blocks in increasing order, full or short at the end and directly behind their predecessor. */
  lemma {:induction false} IncreasingIsUniform(blockSize: nat, expected: int, items: seq<Item>)
    requires Increasing(items) && FrameNumbers(items) && items != [] && 0 <= expected <= items[0].number
    requires forall i :: 0 <= i < |items| - 1 ==> |items[i].payload| == blockSize
    requires var n := |items| - 1;
             |items[n].payload| == blockSize ||
             (|items[n].payload| < blockSize &&
              items[n].number == if n == 0 then expected else items[n - 1].number + 1)
    ensures Uniform(blockSize, expected, items)
    decreases items
  {
    if |items| > 1 {
      var rest := items[1..];
      assert forall i :: 0 <= i < |rest| ==> rest[i] == items[i + 1];
      assert IsFrameNumber(items[0].number) && items[0].number < items[1].number;
      IncreasingIsUniform(blockSize, items[0].number + 1, rest);
    } else {
      assert IsFrameNumber(items[0].number);
    }
  }

  lemma IncreasingAt(order: seq<Item>, i: nat, j: nat)
    requires Increasing(order) && i < |order| && j < |order|
    ensures i < j <==> order[i].number < order[j].number
  {
  }

  lemma LastFollows(order: seq<Item>)
    requires |order| > 1 && Increasing(order) && HasNumber(order, order[|order| - 1].number - 1)
    ensures order[|order| - 2].number == order[|order| - 1].number - 1
  {
    var i :| 0 <= i < |order| && order[i].number == order[|order| - 1].number - 1;
    IncreasingAt(order, i, |order| - 2);
    IncreasingAt(order, |order| - 2, |order| - 1);
  }

  lemma OrderIsUniform(blockSize: nat, pending: seq<Item>, order: seq<Item>)
    requires pending != [] && InBlocks(blockSize, pending) && FrameNumbers(pending)
    requires multiset(order) == multiset(pending) && Increasing(order) && |order| == |pending|
    requires order[0].number == Least(pending) && order[|order| - 1].number == Greatest(pending)
    ensures Uniform(blockSize, order[0].number, order)
  {
    var n := |order| - 1;
    PermutationKeepsNumbers(pending, order);
    SameMembers(order, pending);
    assert order[n] in pending;
    forall i | 0 <= i < n ensures |order[i].payload| == blockSize {
      assert order[i] in pending && order[i].number < order[n].number;
    }
    if |order[n].payload| != blockSize && n > 0 {
      HasNumberByMember(pending, order[n].number - 1);
      HasNumberByMember(order, order[n].number - 1);
      LastFollows(order);
    }
    IncreasingIsUniform(blockSize, order[0].number, order);
  }

  /**
   In a drain with noise the block numbered f starts (f - fmin) blocks behind what was written before,
   and a place that belongs to an absent number holds the noise value.
   */
  lemma NoiseKeepsPositions(cfg: RxConfig, blockSize: nat, pending: seq<Item>, sink: Sink, number: int)
    returns (bytes: seq<byte>)
    requires cfg.ordered && cfg.addNoise && pending != []
    requires Distinct(pending) && FrameNumbers(pending) && InBlocks(blockSize, pending)
    requires Least(pending) <= number <= Greatest(pending)
    ensures Drain(cfg, pending, sink).out == sink.out + bytes
    ensures Placed(bytes, cfg.noiseValue, blockSize, Least(pending), pending, number)
  {
    var order := DrainOrder(cfg, pending, sink);
    SortedDistinctIncreases(pending, order);
    OrderIsUniform(blockSize, pending, order);
    OrderKeepsPositions(cfg, blockSize, order, number);
    EmitAllBytes(cfg, order[0].number, order, sink);
    bytes := OrderBytes(cfg, order);
    SamePlaces(bytes, cfg.noiseValue, blockSize, Least(pending), order, pending, number);
  }

  lemma SamePlaces(bytes: seq<byte>, v: byte, blockSize: nat, first: int, a: seq<Item>, b: seq<Item>, number: int)
    requires multiset(a) == multiset(b) && Placed(bytes, v, blockSize, first, a, number)
    ensures Placed(bytes, v, blockSize, first, b, number)
  {
    SameMembers(a, b);
    HasNumberByMember(a, number);
    HasNumberByMember(b, number);
  }

  // ---------- The block behind a gap ----------

  lemma FullBlockCons(cfg: RxConfig, size: nat, expected: int, first: Item, rest: seq<Item>, gap: nat)
    requires cfg.ordered && cfg.addNoise && 0 <= expected <= first.number && IsFrameNumber(first.number)
    requires gap == first.number - expected && |first.payload| == size
    ensures |BlockBytes(cfg, expected, [first] + rest)|
         == gap * size + size + |BlockBytes(cfg, first.number + 1, rest)|
  {
    assert ([first] + rest)[1..] == rest;
    assert Gap(cfg, expected, first.number) == gap;
    RepeatedLength(gap, Fill(size, cfg.noiseValue));
  }

  /** The blocks of two parts: behind the first part one more than its last number is expected. */
  lemma {:induction false} BytesSplit(cfg: RxConfig, expected: int, all: seq<Item>, a: seq<Item>, b: seq<Item>,
                                      tail: seq<byte>)
    requires a != [] && all == a + b && tail == BlockBytes(cfg, Int32(a[|a| - 1].number + 1), b)
    ensures BlockBytes(cfg, expected, all) == BlockBytes(cfg, expected, a) + tail
    decreases a
  {
    assert all[1..] == a[1..] + b;
    if |a| == 1 {
      assert a[1..] + b == b && [] + tail == tail;
    } else {
      BytesSplit(cfg, Int32(a[0].number + 1), all[1..], a[1..], b, tail);
    }
    JoinBytes(cfg, expected, all, a, tail);
  }

  lemma JoinBytes(cfg: RxConfig, expected: int, all: seq<Item>, a: seq<Item>, tail: seq<byte>)
    requires all != [] && a != [] && all[0] == a[0]
    requires var next := Int32(a[0].number + 1);
             BlockBytes(cfg, next, all[1..]) == BlockBytes(cfg, next, a[1..]) + tail
    ensures BlockBytes(cfg, expected, all) == BlockBytes(cfg, expected, a) + tail
  {
    Associative(NoiseBytes(cfg, expected, a[0]) + a[0].payload, BlockBytes(cfg, Int32(a[0].number + 1), a[1..]), tail);
  }

  /** Blocks and the noise between them: the last one starts as many blocks behind as its number says. */
  lemma {:induction false} UniformLength(cfg: RxConfig, blockSize: nat, expected: int, items: seq<Item>, span: nat)
    requires cfg.ordered && cfg.addNoise && items != [] && Uniform(blockSize, expected, items)
    requires span == items[|items| - 1].number - expected
    ensures |BlockBytes(cfg, expected, items)| == span * blockSize + |items[|items| - 1].payload|
    decreases items
  {
    var first, rest := items[0], items[1..];
    var gap := first.number - expected;
    assert items == [first] + rest;
    FullBlockCons(cfg, |first.payload|, expected, first, rest, gap);
    if rest != [] {
      assert rest[|rest| - 1] == items[|items| - 1];
      UniformNumbers(blockSize, first.number + 1, rest);
      UniformLength(cfg, blockSize, first.number + 1, rest, span - gap - 1);
      JoinTimes(gap, span - gap - 1, span, blockSize);
    }
  }

  lemma JoinTimes(gap: nat, left: nat, span: nat, size: nat)
    requires span == gap + 1 + left
    ensures span * size == gap * size + size + left * size
  {
  }

  /**
   Behind full blocks the next one starts where its number says exactly if it is as long as they are
   or follows them directly: noise takes the size of the block behind the gap, not of the blocks that
   are missing.
   */
  lemma BlockBehindGapKeepsItsPlaceExactly(cfg: RxConfig, blockSize: nat, init: seq<Item>, last: Item,
                                           pending: seq<Item>, sink: Sink)
    requires cfg.ordered && cfg.addNoise && init != [] && Uniform(blockSize, init[0].number, init)
    requires forall i :: 0 <= i < |init| ==> |init[i].payload| == blockSize
    requires init[|init| - 1].number < last.number && IsFrameNumber(last.number)
    requires Distinct(pending) && Sorted(ByNumber, init + [last]) && multiset(init + [last]) == multiset(pending)
    ensures |Drain(cfg, pending, sink).out| - |sink.out| - |last.payload| == (last.number - init[0].number) * blockSize
       <==> |last.payload| == blockSize || last.number == init[|init| - 1].number + 1
  {
    var end, first := init[|init| - 1].number, init[0].number;
    DistinctDrainOrder(pending, init + [last]);
    DrainBytes(cfg, pending, sink);
    UniformNumbers(blockSize, first, init);
    LastPlace(cfg, blockSize, init, last, end + 1 - first, last.number - end - 1);
  }

  lemma LastPlace(cfg: RxConfig, blockSize: nat, init: seq<Item>, last: Item, span: nat, gap: nat)
    requires cfg.ordered && cfg.addNoise && init != [] && Uniform(blockSize, init[0].number, init)
    requires forall i :: 0 <= i < |init| ==> |init[i].payload| == blockSize
    requires IsFrameNumber(last.number) && span == init[|init| - 1].number + 1 - init[0].number
    requires gap == last.number - init[|init| - 1].number - 1
    ensures |OrderBytes(cfg, init + [last])| - |last.payload| == (span + gap) * blockSize
       <==> |last.payload| == blockSize || gap == 0
  {
    UniformNumbers(blockSize, init[0].number, init);
    var end := BlockBytes(cfg, Int32(init[|init| - 1].number + 1), [last]);
    BytesSplit(cfg, init[0].number, init + [last], init, [last], end);
    UniformLength(cfg, blockSize, init[0].number, init, span - 1);
    JoinTimes(span - 1, 0, span, blockSize);
    assert [last] + [] == [last];
    FullBlockCons(cfg, |last.payload|, init[|init| - 1].number + 1, last, [], gap);
    GapShift(span, gap, blockSize, |last.payload|);
  }

  lemma {:induction false} UniformNumbers(blockSize: nat, expected: int, items: seq<Item>)
    requires Uniform(blockSize, expected, items) && items != []
    ensures IsFrameNumber(items[|items| - 1].number) && expected <= items[|items| - 1].number
    decreases items
  {
    if |items| > 1 {
      UniformNumbers(blockSize, items[0].number + 1, items[1..]);
    }
  }

  lemma GapShift(done: nat, gap: nat, a: nat, b: nat)
    ensures done * a + gap * b == (done + gap) * a <==> b == a || gap == 0
  {
    assert (done + gap) * a == done * a + gap * a;
    if gap > 0 && a != b {
      assert gap * a - gap * b == gap * (a - b) != 0;
    }
  }
}
