/** What one drain of the packet buffer writes and counts. */
module Draining {
  import opened Machine
  import opened Sequences
  import opened Heap
  import opened ReceiverModel

  // ---------- The bytes of a drain ----------

  /** How many noise blocks go in front of a block. */
  function Gap(cfg: RxConfig, expected: int, number: int): nat {
    var missing := Missing(cfg, expected, number);
    if cfg.addNoise && missing > 0 then missing else 0
  }

  /** The noise in front of a block, in pieces of the block's size. */
  function NoiseBytes(cfg: RxConfig, expected: int, item: Item): seq<byte> {
    Concat(Fill(Gap(cfg, expected, item.number), Fill(|item.payload|, cfg.noiseValue)))
  }

  function BlockBytes(cfg: RxConfig, expected: int, items: seq<Item>): seq<byte>
    decreases items
  {
    if items == [] then []
    else
      NoiseBytes(cfg, expected, items[0]) + items[0].payload + BlockBytes(cfg, Int32(items[0].number + 1), items[1..])
  }

  /** The bytes of blocks that are already in order; the first number is the first one expected. */
  function OrderBytes(cfg: RxConfig, order: seq<Item>): seq<byte> {
    if order == [] then [] else BlockBytes(cfg, order[0].number, order)
  }

  lemma FillCons<T>(n: nat, v: T)
    requires n > 0
    ensures Fill(n, v) == [v] + Fill(n - 1, v)
  {
  }

  lemma {:induction false} WriteNoiseBytes(sink: Sink, count: int, size: nat, v: byte)
    ensures count >= 0 ==> WriteNoise(sink, count, size, v).out == sink.out + Concat(Fill(count, Fill(size, v)))
    ensures count < 0 ==> WriteNoise(sink, count, size, v) == sink
    decreases count
  {
    if count > 0 {
      WriteNoiseBytes(Noise(sink, size, v), count - 1, size, v);
      FillCons(count, Fill(size, v));
      Associative(sink.out, Fill(size, v), Concat(Fill(count - 1, Fill(size, v))));
    } else if count == 0 {
      assert sink.out + [] == sink.out;
    }
  }

  lemma EmitBytes(cfg: RxConfig, expected: int, item: Item, sink: Sink)
    ensures Emit(cfg, expected, item, sink).out == sink.out + (NoiseBytes(cfg, expected, item) + item.payload)
  {
    WriteNoiseBytes(sink, Missing(cfg, expected, item.number), |item.payload|, cfg.noiseValue);
    assert sink.out + [] == sink.out;
    assert Concat(Fill(0, Fill(|item.payload|, cfg.noiseValue))) == [];
  }

  lemma {:induction false} EmitAllBytes(cfg: RxConfig, expected: int, items: seq<Item>, sink: Sink)
    ensures EmitAll(cfg, expected, items, sink).out == sink.out + BlockBytes(cfg, expected, items)
    decreases items
  {
    if items != [] {
      var next := Emit(cfg, expected, items[0], sink);
      EmitBytes(cfg, expected, items[0], sink);
      EmitAllBytes(cfg, Int32(items[0].number + 1), items[1..], next);
    }
  }

  lemma DrainBytes(cfg: RxConfig, pending: seq<Item>, sink: Sink)
    ensures Drain(cfg, pending, sink).out == sink.out + OrderBytes(cfg, HeapOrder(ByNumber, pending))
  {
    var order := HeapOrder(ByNumber, pending);
    if order != [] {
      EmitAllBytes(cfg, order[0].number, order, sink);
    }
  }

  // ---------- Order ----------

  ghost predicate Distinct(items: seq<Item>) {
    forall i, j :: 0 <= i < j < |items| ==> items[i].number != items[j].number
  }

  ghost predicate Increasing(items: seq<Item>) {
    forall i, j :: 0 <= i < j < |items| ==> items[i].number < items[j].number
  }

  function Payloads(items: seq<Item>): seq<seq<byte>> {
    Map((it: Item) => it.payload, items)
  }

  lemma DistinctIsTieFree(items: seq<Item>)
    requires Distinct(items)
    ensures TieFree(ByNumber, items)
  {
  }

  /** Without duplicate numbers a drain writes the one sorted permutation of what is pending. */
  lemma DistinctDrainOrder(pending: seq<Item>, order: seq<Item>)
    requires Distinct(pending) && Sorted(ByNumber, order) && multiset(order) == multiset(pending)
    ensures HeapOrder(ByNumber, pending) == order
  {
    HeapOrderIsSortedPermutation(ByNumber, pending);
    var heaped := HeapOrder(ByNumber, pending);
    DistinctIsTieFree(pending);
    forall x, y | x in heaped && y in heaped && !ByNumber(x, y) && !ByNumber(y, x) ensures x == y {
      assert x in multiset(heaped) && y in multiset(heaped);
      assert x in multiset(pending) && y in multiset(pending);
    }
    SortedPermutationIsUnique(ByNumber, heaped, order);
  }

  lemma IncreasingDrainOrder(pending: seq<Item>)
    requires Increasing(pending)
    ensures HeapOrder(ByNumber, pending) == pending
  {
    DistinctDrainOrder(pending, pending);
  }

  /** No noise is asked for, or nothing is missing between neighbours. */
  ghost predicate Gapless(cfg: RxConfig, items: seq<Item>) {
    cfg.ordered && cfg.addNoise ==>
      forall i, j :: 0 <= i < j < |items| && j == i + 1 ==> items[j].number == Int32(items[i].number + 1)
  }

  lemma {:induction false} GaplessBytes(cfg: RxConfig, expected: int, items: seq<Item>)
    requires Gapless(cfg, items)
    requires cfg.ordered && cfg.addNoise && items != [] ==> expected == items[0].number
    ensures BlockBytes(cfg, expected, items) == Concat(Payloads(items))
    decreases items
  {
    if items != [] {
      var rest := items[1..];
      assert rest != [] ==> rest[0] == items[1];
      assert forall i :: 0 < i < |rest| ==> rest[i] == items[i + 1] && rest[i - 1] == items[i];
      GaplessBytes(cfg, Int32(items[0].number + 1), rest);
      PayloadsCons(items);
      NoGapBytes(cfg, expected, items);
    }
  }

  lemma PayloadsCons(items: seq<Item>)
    requires items != []
    ensures Payloads(items) == [items[0].payload] + Payloads(items[1..])
  {
  }

  lemma NoGapBytes(cfg: RxConfig, expected: int, items: seq<Item>)
    requires items != [] && Gap(cfg, expected, items[0].number) == 0
    ensures BlockBytes(cfg, expected, items)
         == items[0].payload + BlockBytes(cfg, Int32(items[0].number + 1), items[1..])
  {
    assert NoiseBytes(cfg, expected, items[0]) == [];
  }

  lemma GaplessOrder(cfg: RxConfig, order: seq<Item>)
    requires Gapless(cfg, order)
    ensures OrderBytes(cfg, order) == Concat(Payloads(order))
  {
    if order != [] {
      GaplessBytes(cfg, order[0].number, order);
    }
  }

  /** Blocks that arrive in increasing order, with no noise to fill in, are written as they came. */
  lemma InOrderDrain(cfg: RxConfig, pending: seq<Item>)
    requires Increasing(pending) && Gapless(cfg, pending)
    ensures OrderBytes(cfg, HeapOrder(ByNumber, pending)) == Concat(Payloads(pending))
  {
    IncreasingDrainOrder(pending);
    GaplessOrder(cfg, pending);
  }

  // ---------- Sizes ----------

  function Sizes(items: seq<Item>): nat {
    if items == [] then 0 else |items[0].payload| + Sizes(items[1..])
  }

  lemma {:induction false} SizesAppend(a: seq<Item>, b: seq<Item>)
    ensures Sizes(a + b) == Sizes(a) + Sizes(b)
  {
    if a == [] {
      assert a + b == b;
    } else {
      assert (a + b)[1..] == a[1..] + b;
      SizesAppend(a[1..], b);
    }
  }

  lemma {:induction false} SizesPermute(a: seq<Item>, b: seq<Item>)
    requires multiset(a) == multiset(b)
    ensures Sizes(a) == Sizes(b)
    decreases |a|
  {
    if a == [] {
      assert |multiset(b)| == 0;
    } else {
      assert a[0] in multiset(b);
      var k :| 0 <= k < |b| && b[k] == a[0];
      WithoutMultiset(b, k);
      WithoutMultiset(a, 0);
      assert Without(a, 0) == a[1..];
      SizesPermute(a[1..], Without(b, k));
      SizesWithout(b, k);
    }
  }

  lemma {:induction false} SizesWithout(b: seq<Item>, k: nat)
    requires k < |b|
    ensures Sizes(b) == |b[k].payload| + Sizes(Without(b, k))
    decreases k
  {
    if k == 0 {
      assert Without(b, 0) == b[1..];
    } else {
      SizesWithout(b[1..], k - 1);
      assert Without(b, k)[1..] == Without(b[1..], k - 1);
    }
  }

  lemma {:induction false} PayloadsSize(items: seq<Item>)
    ensures |Concat(Payloads(items))| == Sizes(items)
  {
    if items != [] {
      PayloadsSize(items[1..]);
      PayloadsCons(items);
    }
  }

  lemma OrderSizes(pending: seq<Item>)
    ensures Sizes(HeapOrder(ByNumber, pending)) == Sizes(pending)
  {
    HeapOrderIsSortedPermutation(ByNumber, pending);
    SizesPermute(HeapOrder(ByNumber, pending), pending);
  }

  /** No noise is ever written. */
  predicate Noiseless(cfg: RxConfig) {
    !(cfg.ordered && cfg.addNoise)
  }

  lemma {:induction false} BytesSize(cfg: RxConfig, expected: int, items: seq<Item>)
    ensures |BlockBytes(cfg, expected, items)| >= Sizes(items)
    ensures Noiseless(cfg) ==> |BlockBytes(cfg, expected, items)| == Sizes(items)
    decreases items
  {
    if items != [] {
      BytesSize(cfg, Int32(items[0].number + 1), items[1..]);
      assert Noiseless(cfg) ==> NoiseBytes(cfg, expected, items[0]) == [];
    }
  }
}
