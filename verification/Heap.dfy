/** The generic array heap and the in-place heap sort of libdxwifi/details/heap.c. */
module Heap {
  import opened Sequences

  // ---------- Orders ----------

  ghost predicate StrictPartialOrder<T(!new)>(lt: (T, T) -> bool) {
    && (forall x :: !lt(x, x))
    && (forall x, y, z :: lt(x, y) && lt(y, z) ==> lt(x, z))
  }

  /** A strict partial order in which "not less" is transitive as well. */
  ghost predicate StrictWeakOrder<T(!new)>(lt: (T, T) -> bool) {
    && StrictPartialOrder(lt)
    && (forall x, y, z :: !lt(x, y) && !lt(y, z) ==> !lt(x, z))
  }

  /** No later element is less than an earlier one. */
  ghost predicate Sorted<T>(lt: (T, T) -> bool, s: seq<T>) {
    forall i, j :: 0 <= i < j < |s| ==> !lt(s[j], s[i])
  }

  /** Elements that do not compare are equal. */
  ghost predicate TieFree<T>(lt: (T, T) -> bool, s: seq<T>) {
    forall x, y :: x in s && y in s && !lt(x, y) && !lt(y, x) ==> x == y
  }

  /** No earlier element is less than a later one. */
  ghost predicate Descending<T>(lt: (T, T) -> bool, s: seq<T>) {
    forall i, j :: 0 <= i < j < |s| ==> !lt(s[i], s[j])
  }

  ghost predicate Minimal<T>(lt: (T, T) -> bool, s: seq<T>, m: T) {
    forall x :: x in s ==> !lt(x, m)
  }

  // ---------- The tree laid out in a sequence ----------

  function Parent(i: nat): nat
    requires i > 0
  {
    (i - 1) / 2
  }

  function Left(i: nat): nat { 2 * i + 1 }

  function Right(i: nat): nat { 2 * i + 2 }

  /** Every node whose parent is at or below index `lo` is not less than that parent. */
  ghost predicate HeapFrom<T>(lt: (T, T) -> bool, t: seq<T>, lo: nat) {
    forall j :: 0 < j < |t| && lo <= Parent(j) ==> !lt(t[j], t[Parent(j)])
  }

  ghost predicate IsHeap<T>(lt: (T, T) -> bool, t: seq<T>) {
    HeapFrom(lt, t, 0)
  }

  function Swap<T>(t: seq<T>, i: nat, j: nat): (r: seq<T>)
    requires i < |t| && j < |t|
    ensures |r| == |t|
  {
    t[i := t[j]][j := t[i]]
  }

  function SiftUp<T>(lt: (T, T) -> bool, t: seq<T>, i: nat): (r: seq<T>)
    requires i < |t|
    ensures |r| == |t|
    decreases i
  {
    if i != 0 && lt(t[i], t[Parent(i)]) then SiftUp(lt, Swap(t, i, Parent(i)), Parent(i)) else t
  }

  /** The node among `i` and its children that should be on top. */
  function Top<T>(lt: (T, T) -> bool, t: seq<T>, i: nat): (k: nat)
    requires i < |t|
    ensures k == i || (k == Left(i) < |t|) || (k == Right(i) < |t|)
  {
    var a := if Left(i) < |t| && lt(t[Left(i)], t[i]) then Left(i) else i;
    if Right(i) < |t| && lt(t[Right(i)], t[a]) then Right(i) else a
  }

  function SiftDown<T>(lt: (T, T) -> bool, t: seq<T>, i: nat): (r: seq<T>)
    ensures |r| == |t|
    decreases |t| - i
  {
    if i >= |t| || Top(lt, t, i) == i then t
    else SiftDown(lt, Swap(t, i, Top(lt, t, i)), Top(lt, t, i))
  }

  function Pushed<T>(lt: (T, T) -> bool, t: seq<T>, x: T): (r: seq<T>)
    ensures |r| == |t| + 1
  {
    SiftUp(lt, t + [x], |t|)
  }

  /** The last element in place of the root, one element fewer. */
  function Cut<T>(t: seq<T>): (r: seq<T>)
    requires t != []
    ensures |r| == |t| - 1
  {
    t[0 := t[|t| - 1]][..|t| - 1]
  }

  /** What is left after the root has been popped. */
  function PopRest<T>(lt: (T, T) -> bool, t: seq<T>): (r: seq<T>)
    requires t != []
    ensures |r| == |t| - 1
  {
    SiftDown(lt, Cut(t), 0)
  }

  /** The elements in the order in which popping until empty delivers them. */
  function PopAll<T>(lt: (T, T) -> bool, t: seq<T>): (r: seq<T>)
    ensures |r| == |t|
    decreases |t|
  {
    if t == [] then [] else [t[0]] + PopAll(lt, PopRest(lt, t))
  }

  /** The heap that pushing the elements of `xs` one after the other builds. */
  function HeapOf<T>(lt: (T, T) -> bool, xs: seq<T>): (t: seq<T>)
    ensures |t| == |xs|
  {
    if xs == [] then [] else Pushed(lt, HeapOf(lt, xs[..|xs| - 1]), xs[|xs| - 1])
  }

  /** Push everything, then pop everything. */
  function HeapOrder<T>(lt: (T, T) -> bool, xs: seq<T>): (r: seq<T>)
    ensures |r| == |xs|
  {
    PopAll(lt, HeapOf(lt, xs))
  }

  // ---------- No element is lost or invented ----------

  lemma SwapPermutes<T>(t: seq<T>, i: nat, j: nat)
    requires i < |t| && j < |t|
    ensures multiset(Swap(t, i, j)) == multiset(t)
  {
  }

  lemma {:induction false} SiftUpPermutes<T>(lt: (T, T) -> bool, t: seq<T>, i: nat)
    requires i < |t|
    ensures multiset(SiftUp(lt, t, i)) == multiset(t)
    decreases i
  {
    if i != 0 && lt(t[i], t[Parent(i)]) {
      SwapPermutes(t, i, Parent(i));
      SiftUpPermutes(lt, Swap(t, i, Parent(i)), Parent(i));
    }
  }

  lemma {:induction false} SiftDownPermutes<T>(lt: (T, T) -> bool, t: seq<T>, i: nat)
    ensures multiset(SiftDown(lt, t, i)) == multiset(t)
    decreases |t| - i
  {
    if i < |t| && Top(lt, t, i) != i {
      SwapPermutes(t, i, Top(lt, t, i));
      SiftDownPermutes(lt, Swap(t, i, Top(lt, t, i)), Top(lt, t, i));
    }
  }

  lemma PushAddsOne<T>(lt: (T, T) -> bool, t: seq<T>, x: T)
    ensures multiset(Pushed(lt, t, x)) == multiset(t) + multiset{x}
  {
    SiftUpPermutes(lt, t + [x], |t|);
  }

  lemma PopRemovesRoot<T>(lt: (T, T) -> bool, t: seq<T>)
    requires t != []
    ensures multiset(PopRest(lt, t)) + multiset{t[0]} == multiset(t)
  {
    SiftDownPermutes(lt, Cut(t), 0);
    if |t| > 1 {
      var mid, last := t[1..|t| - 1], t[|t| - 1];
      assert t == [t[0]] + mid + [last];
      assert Cut(t) == [last] + mid;
    } else {
      assert t == [t[0]];
    }
  }

  lemma {:induction false} PopAllPermutes<T>(lt: (T, T) -> bool, t: seq<T>)
    ensures multiset(PopAll(lt, t)) == multiset(t)
    decreases |t|
  {
    if t != [] {
      PopRemovesRoot(lt, t);
      PopAllPermutes(lt, PopRest(lt, t));
    }
  }

  lemma {:induction false} HeapOfPermutes<T>(lt: (T, T) -> bool, xs: seq<T>)
    ensures multiset(HeapOf(lt, xs)) == multiset(xs)
  {
    if xs != [] {
      var init, last := xs[..|xs| - 1], xs[|xs| - 1];
      HeapOfPermutes(lt, init);
      PushAddsOne(lt, HeapOf(lt, init), last);
      assert xs == init + [last];
    }
  }

  // ---------- Heap order is kept ----------

  lemma {:induction false} SiftUpKeepsHeap<T(!new)>(lt: (T, T) -> bool, t: seq<T>, i: nat)
    requires StrictWeakOrder(lt) && i < |t|
    requires forall j :: 0 < j < |t| && j != i ==> !lt(t[j], t[Parent(j)])
    requires i > 0 ==> forall j :: 0 < j < |t| && Parent(j) == i ==> !lt(t[j], t[Parent(i)])
    ensures IsHeap(lt, SiftUp(lt, t, i))
    decreases i
  {
    if i != 0 && lt(t[i], t[Parent(i)]) {
      var p := Parent(i);
      var s := Swap(t, i, p);
      forall j | 0 < j < |s| && j != p ensures !lt(s[j], s[Parent(j)]) {
        if Parent(j) == p && j != i { assert !lt(t[j], t[p]); }
      }
      forall j | p > 0 && 0 < j < |s| && Parent(j) == p ensures !lt(s[j], s[Parent(p)]) {
        assert !lt(t[p], t[Parent(p)]);
      }
      SiftUpKeepsHeap(lt, s, p);
    }
  }

  lemma {:induction false} SiftDownKeepsHeap<T(!new)>(lt: (T, T) -> bool, t: seq<T>, lo: nat, i: nat)
    requires StrictWeakOrder(lt) && lo <= i
    requires forall j :: 0 < j < |t| && lo <= Parent(j) != i ==> !lt(t[j], t[Parent(j)])
    requires i > 0 && lo <= Parent(i) ==>
               forall j :: 0 < j < |t| && Parent(j) == i ==> !lt(t[j], t[Parent(i)])
    ensures HeapFrom(lt, SiftDown(lt, t, i), lo)
    decreases |t| - i
  {
    if i < |t| {
      var k := Top(lt, t, i);
      forall j | 0 < j < |t| && Parent(j) == i ensures !lt(t[j], t[k]) {
        assert j == Left(i) || j == Right(i);
      }
      if k != i {
        assert Parent(k) == i;
        var s := Swap(t, i, k);
        forall j | 0 < j < |s| && lo <= Parent(j) != k ensures !lt(s[j], s[Parent(j)]) {
          if j == i { assert !lt(t[k], t[Parent(i)]); }
        }
        forall j | 0 < j < |s| && Parent(j) == k ensures !lt(s[j], s[i]) {
          assert !lt(t[j], t[k]);
        }
        SiftDownKeepsHeap(lt, s, lo, k);
      }
    }
  }

  lemma PushKeepsHeap<T(!new)>(lt: (T, T) -> bool, t: seq<T>, x: T)
    requires StrictWeakOrder(lt) && IsHeap(lt, t)
    ensures IsHeap(lt, Pushed(lt, t, x))
  {
    SiftUpKeepsHeap(lt, t + [x], |t|);
  }

  lemma PopKeepsHeap<T(!new)>(lt: (T, T) -> bool, t: seq<T>)
    requires StrictWeakOrder(lt) && IsHeap(lt, t) && t != []
    ensures IsHeap(lt, PopRest(lt, t))
  {
    SiftDownKeepsHeap(lt, Cut(t), 0, 0);
  }

  lemma {:induction false} AncestorNotGreater<T(!new)>(lt: (T, T) -> bool, t: seq<T>, j: nat)
    requires StrictWeakOrder(lt) && IsHeap(lt, t) && j < |t|
    ensures !lt(t[j], t[0])
  {
    if j > 0 {
      AncestorNotGreater(lt, t, Parent(j));
    }
  }

  lemma RootIsMinimal<T(!new)>(lt: (T, T) -> bool, t: seq<T>)
    requires StrictWeakOrder(lt) && IsHeap(lt, t) && t != []
    ensures Minimal(lt, t, t[0])
  {
    forall x | x in t ensures !lt(x, t[0]) {
      var j :| 0 <= j < |t| && t[j] == x;
      AncestorNotGreater(lt, t, j);
    }
  }

  /**
   The header asks comparators for a partial order only. For a strict partial order, heap
   order makes the root minimal in every heap exactly when the order is weak.
   */
  lemma RootMinimalExactlyForWeakOrders<T(!new)>(lt: (T, T) -> bool)
    requires StrictPartialOrder(lt)
    ensures StrictWeakOrder(lt) <==> forall t: seq<T> :: t != [] && IsHeap(lt, t) ==> Minimal(lt, t, t[0])
  {
    if StrictWeakOrder(lt) {
      forall t: seq<T> | t != [] && IsHeap(lt, t) ensures Minimal(lt, t, t[0]) {
        RootIsMinimal(lt, t);
      }
    } else {
      var x, y, z :| !lt(x, y) && !lt(y, z) && lt(x, z);
      var t := [z, y, z, x];
      assert Parent(1) == 0 && Parent(2) == 0 && Parent(3) == 1;
      assert IsHeap(lt, t);
      assert x in t && !Minimal(lt, t, t[0]);
    }
  }

  /** "Less by two or more" is such an order: 2 pushed onto the heap 4, 3, 4 stays below the root 4. */
  lemma PartialOrderIsNotEnough()
    ensures var lt := (a: int, b: int) => a + 2 <= b;
            && StrictPartialOrder(lt) && IsHeap(lt, [4, 3, 4])
            && Pushed(lt, [4, 3, 4], 2)[0] == 4 && lt(2, 4)
  {
    var lt := (a: int, b: int) => a + 2 <= b;
    var t := [4, 3, 4] + [2];
    assert t[Parent(3)] == 3 && !lt(t[3], t[Parent(3)]);
    assert SiftUp(lt, t, 3) == t;
  }

  // ---------- Popping everything sorts ----------

  lemma {:induction false} PopAllSorts<T(!new)>(lt: (T, T) -> bool, t: seq<T>)
    requires StrictWeakOrder(lt) && IsHeap(lt, t)
    ensures Sorted(lt, PopAll(lt, t))
    decreases |t|
  {
    if t != [] {
      PopKeepsHeap(lt, t);
      PopAllSorts(lt, PopRest(lt, t));
      RootIsMinimal(lt, t);
      PopRemovesRoot(lt, t);
      PopAllPermutes(lt, PopRest(lt, t));
      SortedCons(lt, t, t[0], PopAll(lt, PopRest(lt, t)));
    }
  }

  lemma SortedCons<T>(lt: (T, T) -> bool, t: seq<T>, m: T, tail: seq<T>)
    requires Minimal(lt, t, m) && multiset(tail) <= multiset(t) && Sorted(lt, tail)
    ensures Sorted(lt, [m] + tail)
  {
    forall j | 0 <= j < |tail| ensures !lt(tail[j], m) {
      assert tail[j] in multiset(tail);
      assert tail[j] in multiset(t);
    }
  }

  lemma {:induction false} HeapOfIsHeap<T(!new)>(lt: (T, T) -> bool, xs: seq<T>)
    requires StrictWeakOrder(lt)
    ensures IsHeap(lt, HeapOf(lt, xs))
  {
    if xs != [] {
      HeapOfIsHeap(lt, xs[..|xs| - 1]);
      PushKeepsHeap(lt, HeapOf(lt, xs[..|xs| - 1]), xs[|xs| - 1]);
    }
  }

  /** Push everything and pop everything: a sorted permutation of what was pushed. */
  lemma HeapOrderIsSortedPermutation<T(!new)>(lt: (T, T) -> bool, xs: seq<T>)
    requires StrictWeakOrder(lt)
    ensures Sorted(lt, HeapOrder(lt, xs)) && multiset(HeapOrder(lt, xs)) == multiset(xs)
  {
    HeapOfIsHeap(lt, xs);
    PopAllSorts(lt, HeapOf(lt, xs));
    HeapOfPermutes(lt, xs);
    PopAllPermutes(lt, HeapOf(lt, xs));
  }

  /** Without ties there is only one sorted permutation. */
  lemma {:induction false} SortedPermutationIsUnique<T>(lt: (T, T) -> bool, a: seq<T>, b: seq<T>)
    requires Sorted(lt, a) && Sorted(lt, b) && multiset(a) == multiset(b)
    requires TieFree(lt, a)
    ensures a == b
    decreases |a|
  {
    assert |multiset(a)| == |a| && |multiset(b)| == |b|;
    if a != [] {
      assert a[0] in multiset(b) && b[0] in multiset(a);
      HeadNotGreater(lt, a, b[0]);
      HeadNotGreater(lt, b, a[0]);
      assert a[0] == b[0];
      TailMultiset(a);
      TailMultiset(b);
      SortedPermutationIsUnique(lt, a[1..], b[1..]);
    }
  }

  lemma TailMultiset<T>(s: seq<T>)
    requires s != []
    ensures multiset(s[1..]) == multiset(s) - multiset{s[0]}
    ensures forall x :: x in s[1..] ==> x in s
  {
    assert s == [s[0]] + s[1..];
  }

  lemma HeadNotGreater<T>(lt: (T, T) -> bool, s: seq<T>, x: T)
    requires Sorted(lt, s) && x in s
    ensures x == s[0] || !lt(x, s[0])
  {
    var j :| 0 <= j < |s| && s[j] == x;
  }

  // ---------- The order depends on comparisons only ----------

  lemma {:induction false} SiftUpMap<A(!new), B>(f: A -> B, la: (A, A) -> bool, lb: (B, B) -> bool, t: seq<A>, i: nat)
    requires forall x, y :: lb(f(x), f(y)) == la(x, y)
    requires i < |t|
    ensures SiftUp(lb, Map(f, t), i) == Map(f, SiftUp(la, t, i))
    decreases i
  {
    if i != 0 && la(t[i], t[Parent(i)]) {
      SiftUpMap(f, la, lb, Swap(t, i, Parent(i)), Parent(i));
      assert Map(f, Swap(t, i, Parent(i))) == Swap(Map(f, t), i, Parent(i));
    }
  }

  lemma {:induction false} SiftDownMap<A(!new), B>(f: A -> B, la: (A, A) -> bool, lb: (B, B) -> bool, t: seq<A>, i: nat)
    requires forall x, y :: lb(f(x), f(y)) == la(x, y)
    ensures SiftDown(lb, Map(f, t), i) == Map(f, SiftDown(la, t, i))
    decreases |t| - i
  {
    if i < |t| {
      var k := Top(la, t, i);
      assert Top(lb, Map(f, t), i) == k;
      if k != i {
        SiftDownMap(f, la, lb, Swap(t, i, k), k);
        assert Map(f, Swap(t, i, k)) == Swap(Map(f, t), i, k);
      }
    }
  }

  lemma PopRestMap<A(!new), B>(f: A -> B, la: (A, A) -> bool, lb: (B, B) -> bool, t: seq<A>)
    requires forall x, y :: lb(f(x), f(y)) == la(x, y)
    requires t != []
    ensures PopRest(lb, Map(f, t)) == Map(f, PopRest(la, t))
  {
    assert Map(f, Cut(t)) == Cut(Map(f, t));
    SiftDownMap(f, la, lb, Cut(t), 0);
  }

  lemma {:induction false} PopAllMap<A(!new), B>(f: A -> B, la: (A, A) -> bool, lb: (B, B) -> bool, t: seq<A>)
    requires forall x, y :: lb(f(x), f(y)) == la(x, y)
    ensures PopAll(lb, Map(f, t)) == Map(f, PopAll(la, t))
    decreases |t|
  {
    if t != [] {
      PopRestMap(f, la, lb, t);
      PopAllMap(f, la, lb, PopRest(la, t));
      MapCons(f, t[0], PopAll(la, PopRest(la, t)));
    }
  }

  lemma PushMap<A(!new), B>(f: A -> B, la: (A, A) -> bool, lb: (B, B) -> bool, t: seq<A>, x: A)
    requires forall x, y :: lb(f(x), f(y)) == la(x, y)
    ensures Pushed(lb, Map(f, t), f(x)) == Map(f, Pushed(la, t, x))
  {
    SiftUpMap(f, la, lb, t + [x], |t|);
    assert Map(f, t + [x]) == Map(f, t) + [f(x)];
  }

  lemma {:induction false} HeapOfMap<A(!new), B>(f: A -> B, la: (A, A) -> bool, lb: (B, B) -> bool, xs: seq<A>)
    requires forall x, y :: lb(f(x), f(y)) == la(x, y)
    ensures HeapOf(lb, Map(f, xs)) == Map(f, HeapOf(la, xs))
  {
    if xs != [] {
      var init := xs[..|xs| - 1];
      HeapOfMap(f, la, lb, init);
      assert Map(f, xs)[..|xs| - 1] == Map(f, init);
      PushMap(f, la, lb, HeapOf(la, init), xs[|xs| - 1]);
    }
  }

  /** Relabelling elements without changing how they compare relabels the heap order. */
  lemma HeapOrderMap<A(!new), B>(f: A -> B, la: (A, A) -> bool, lb: (B, B) -> bool, xs: seq<A>)
    requires forall x, y :: lb(f(x), f(y)) == la(x, y)
    ensures HeapOrder(lb, Map(f, xs)) == Map(f, HeapOrder(la, xs))
  {
    HeapOfMap(f, la, lb, xs);
    PopAllMap(f, la, lb, HeapOf(la, xs));
  }

  // ---------- The heap object ----------

  class BinaryHeap<T(0)> {
    const tree: array<T>
    const compare: (T, T) -> bool
    var count: nat

    ghost predicate Valid()
      reads this
    {
      count <= tree.Length
    }

    /** The live part of the array; the rest is stale. */
    ghost function Contents(): seq<T>
      requires Valid()
      reads this, tree
    {
      tree[..count]
    }

    constructor Init(capacity: nat, compare: (T, T) -> bool)
      ensures Valid() && fresh(tree) && tree.Length == capacity
      ensures this.compare == compare && Contents() == []
    {
      this.tree := new T[capacity];
      this.compare := compare;
      this.count := 0;
    }

    /** A heap over storage that somebody else owns. */
    constructor Over(data: array<T>, count: nat, compare: (T, T) -> bool)
      requires count <= data.Length
      ensures Valid() && tree == data && this.count == count && this.compare == compare
    {
      this.tree := data;
      this.compare := compare;
      this.count := count;
    }

    method Exchange(i: nat, j: nat)
      requires Valid() && i < count && j < count
      modifies tree
      ensures Contents() == Swap(old(Contents()), i, j)
      ensures tree[count..] == old(tree[count..])
    {
      tree[i], tree[j] := tree[j], tree[i];
    }

    method Heapify(i: nat)
      requires Valid()
      modifies tree
      ensures Contents() == SiftDown(compare, old(Contents()), i)
      ensures tree[count..] == old(tree[count..])
      decreases count - i
    {
      if i >= count { return; }
      var top := i;
      if Left(i) < count && compare(tree[Left(i)], tree[i]) {
        top := Left(i);
      }
      if Right(i) < count && compare(tree[Right(i)], tree[top]) {
        top := Right(i);
      }
      assert top == Top(compare, Contents(), i);
      if top != i {
        Exchange(i, top);
        Heapify(top);
      }
    }

    /** A full heap is left as it is. */
    method Push(x: T)
      requires Valid()
      modifies this`count, tree
      ensures Valid()
      ensures Contents() == if old(count) < tree.Length then Pushed(compare, old(Contents()), x) else old(Contents())
    {
      if count < tree.Length {
        ghost var before := Contents();
        var i := count;
        count := count + 1;
        tree[i] := x;
        ghost var t := Contents();
        assert t == before + [x];
        while i != 0 && compare(tree[i], tree[Parent(i)])
          invariant 0 <= i < count == |before| + 1 <= tree.Length && t == Contents()
          invariant SiftUp(compare, t, i) == Pushed(compare, before, x)
        {
          Exchange(i, Parent(i));
          i, t := Parent(i), Swap(t, i, Parent(i));
        }
      }
    }

    method Pop() returns (ok: bool, out: T)
      requires Valid()
      modifies this`count, tree
      ensures Valid()
      ensures ok == (old(Contents()) != [])
      ensures ok ==> out == old(Contents())[0] && Contents() == PopRest(compare, old(Contents()))
      ensures !ok ==> Contents() == []
    {
      if count > 0 {
        ghost var before := Contents();
        out := tree[0];
        count := count - 1;
        tree[0] := tree[count];
        assert Contents() == Cut(before);
        Heapify(0);
        ok := true;
      } else {
        ok := false;
        out := *;
      }
    }
  }

  /** Turns the array behind `heap` into a heap, last parent first. */
  method Build<T(0,!new)>(heap: BinaryHeap<T>)
    requires heap.Valid() && heap.count / 2 <= 0x8000_0000
    modifies heap.tree
    ensures multiset(heap.Contents()) == multiset(old(heap.Contents()))
    ensures heap.tree[heap.count..] == old(heap.tree[heap.count..])
    ensures StrictWeakOrder(heap.compare) ==> IsHeap(heap.compare, heap.Contents())
  {
    var i := heap.count / 2 - 1;
    while i >= 0
      invariant -1 <= i < heap.count
      invariant multiset(heap.Contents()) == multiset(old(heap.Contents()))
      invariant heap.tree[heap.count..] == old(heap.tree[heap.count..])
      invariant StrictWeakOrder(heap.compare) ==> HeapFrom(heap.compare, heap.Contents(), i + 1)
    {
      SiftDownPermutes(heap.compare, heap.Contents(), i);
      if StrictWeakOrder(heap.compare) {
        SiftDownKeepsHeap(heap.compare, heap.Contents(), i, i);
      }
      heap.Heapify(i);
      i := i - 1;
    }
  }

  /** What moving the root behind the heap, again and again, makes of heap `t` followed by `done`. */
  function ShrinkAll<T>(lt: (T, T) -> bool, t: seq<T>, done: seq<T>): (r: seq<T>)
    ensures |r| == |t| + |done|
    decreases |t|
  {
    if |t| <= 1 then t + done else ShrinkAll(lt, PopRest(lt, t), [t[0]] + done)
  }

  lemma {:induction false} ShrinkAllPermutes<T>(lt: (T, T) -> bool, t: seq<T>, done: seq<T>)
    ensures multiset(ShrinkAll(lt, t, done)) == multiset(t) + multiset(done)
    decreases |t|
  {
    if |t| > 1 {
      PopRemovesRoot(lt, t);
      ShrinkAllPermutes(lt, PopRest(lt, t), [t[0]] + done);
    }
  }

  lemma {:induction false} ShrinkAllDescends<T(!new)>(lt: (T, T) -> bool, t: seq<T>, done: seq<T>)
    requires StrictWeakOrder(lt) && IsHeap(lt, t) && Descending(lt, done)
    requires forall x, y :: x in t && y in done ==> !lt(x, y)
    ensures Descending(lt, ShrinkAll(lt, t, done))
    decreases |t|
  {
    if |t| > 1 {
      PopKeepsHeap(lt, t);
      PopRemovesRoot(lt, t);
      RootIsMinimal(lt, t);
      forall x | x in PopRest(lt, t) ensures x in t {
        assert x in multiset(PopRest(lt, t)) && x in multiset(t);
      }
      ShrinkAllDescends(lt, PopRest(lt, t), [t[0]] + done);
    }
  }

  /** The second phase of the sort: swap the root to the end, shrink, sift down. */
  method Shrink<T(0)>(heap: BinaryHeap<T>)
    requires 1 <= heap.count <= heap.tree.Length
    modifies heap, heap.tree
    ensures heap.tree[..old(heap.count)] == ShrinkAll(heap.compare, old(heap.tree[..heap.count]), [])
    ensures heap.tree[old(heap.count)..] == old(heap.tree[heap.count..])
  {
    ghost var m := heap.count;
    ghost var t, done, behind := heap.tree[..m], [], heap.tree[m..];
    ghost var goal := ShrinkAll(heap.compare, t, done);
    heap.count := heap.count - 1;
    while heap.count > 0
      invariant heap.count == |t| - 1 && |t| + |done| == m
      invariant heap.tree[..|t|] == t && heap.tree[|t|..m] == done && heap.tree[m..] == behind
      invariant ShrinkAll(heap.compare, t, done) == goal
    {
      SwapOut(heap, t);
      assert heap.tree[|t|..m] == done && heap.tree[m..] == behind;
      assert heap.tree[heap.count..m] == [heap.tree[heap.count]] + heap.tree[|t|..m];
      t, done := PopRest(heap.compare, t), [t[0]] + done;
      heap.count := heap.count - 1;
    }
    assert heap.tree[..m] == t + done;
  }

  /** Exchanges the root with the last element of `t` and sifts the new root down among the others. */
  method SwapOut<T(0)>(heap: BinaryHeap<T>, ghost t: seq<T>)
    requires 0 < heap.count == |t| - 1 < heap.tree.Length && heap.tree[..|t|] == t
    modifies heap.tree
    ensures heap.tree[..|t| - 1] == PopRest(heap.compare, t) && heap.tree[|t| - 1] == t[0]
    ensures forall j :: |t| <= j < heap.tree.Length ==> heap.tree[j] == old(heap.tree[j])
  {
    var n := heap.count;
    heap.tree[0], heap.tree[n] := heap.tree[n], heap.tree[0];
    assert heap.Contents() == Cut(t);
    ghost var tail := heap.tree[n..];
    heap.Heapify(0);
    assert forall j :: n <= j < heap.tree.Length ==> heap.tree[j] == heap.tree[n..][j - n] == tail[j - n];
  }

  /**
   Sorts the first `count` elements so that the greatest comes first: the minimum is what is
   swapped to the end. A count of zero would wrap around, and the start index is a 32-bit int.
   */
  method HeapSort<T(0,!new)>(data: array<T>, count: nat, compare: (T, T) -> bool)
    requires 1 <= count <= data.Length && count / 2 <= 0x8000_0000
    modifies data
    ensures multiset(data[..count]) == multiset(old(data[..count])) && data[count..] == old(data[count..])
    ensures StrictWeakOrder(compare) ==> Descending(compare, data[..count])
  {
    var heap := new BinaryHeap.Over(data, count, compare);
    Build(heap);
    ShrinkAllPermutes(compare, data[..count], []);
    if StrictWeakOrder(compare) {
      ShrinkAllDescends(compare, data[..count], []);
    }
    Shrink(heap);
  }
}
