/** Sequence facts that the standard operators do not give directly. */
module Sequences {

  function Fill<T>(n: nat, v: T): (s: seq<T>)
    ensures |s| == n && forall i :: 0 <= i < n ==> s[i] == v
  {
    seq(n, _ => v)
  }

  /** The elements of `ss`, one after the other. */
  function Concat<T>(ss: seq<seq<T>>): seq<T> {
    if ss == [] then [] else ss[0] + Concat(ss[1..])
  }

  lemma {:induction false} ConcatAppend<T>(a: seq<seq<T>>, b: seq<seq<T>>)
    ensures Concat(a + b) == Concat(a) + Concat(b)
  {
    if a == [] {
      assert a + b == b;
    } else {
      assert (a + b)[1..] == a[1..] + b;
      ConcatAppend(a[1..], b);
    }
  }

  lemma {:induction false} RepeatedLength<T>(k: nat, x: seq<T>)
    ensures |Concat(Fill(k, x))| == k * |x|
  {
    if k > 0 {
      RepeatedLength(k - 1, x);
      assert Fill(k, x)[1..] == Fill(k - 1, x);
      assert k * |x| == |x| + (k - 1) * |x|;
    }
  }

  lemma Associative<T>(a: seq<T>, b: seq<T>, c: seq<T>)
    ensures (a + b) + c == a + (b + c)
  {
  }

  lemma SliceOfSlice<T>(s: seq<T>, a: nat, b: nat, c: nat, d: nat)
    requires a <= b <= |s| && c <= d <= b - a
    ensures s[a..b][c..d] == s[a + c..a + d]
  {
    forall i | 0 <= i < d - c ensures s[a..b][c..d][i] == s[a + c..a + d][i] {
      assert s[a..b][c + i] == s[a + c + i];
    }
  }

  function Map<A, B>(f: A -> B, xs: seq<A>): (ys: seq<B>)
    ensures |ys| == |xs|
    ensures forall i :: 0 <= i < |xs| ==> ys[i] == f(xs[i])
  {
    seq(|xs|, i requires 0 <= i < |xs| => f(xs[i]))
  }

  lemma MapCons<A, B>(f: A -> B, x: A, xs: seq<A>)
    ensures Map(f, [x] + xs) == [f(x)] + Map(f, xs)
  {
  }

  lemma MapSnoc<A, B>(f: A -> B, xs: seq<A>, x: A)
    ensures Map(f, xs + [x]) == Map(f, xs) + [f(x)]
  {
  }

  function Without<T>(xs: seq<T>, k: nat): seq<T>
    requires k < |xs|
  {
    xs[..k] + xs[k + 1..]
  }

  lemma SplitAround<T>(xs: seq<T>, k: nat)
    requires k < |xs|
    ensures xs == xs[..k] + ([xs[k]] + xs[k + 1..])
  {
  }

  lemma WithoutMultiset<T>(xs: seq<T>, k: nat)
    requires k < |xs|
    ensures multiset(Without(xs, k)) == multiset(xs) - multiset{xs[k]}
  {
    assert xs == xs[..k] + [xs[k]] + xs[k + 1..];
  }

  lemma SameMembers<T>(a: seq<T>, b: seq<T>)
    requires multiset(a) == multiset(b)
    ensures forall x :: x in a <==> x in b
  {
    forall x ensures x in a <==> x in b {
      assert x in a <==> x in multiset(a);
      assert x in b <==> x in multiset(b);
    }
  }

  lemma MiddleMultiset<T>(a: seq<T>, b: seq<T>, c: seq<T>)
    ensures multiset(a + (b + c)) == multiset(a + c) + multiset(b)
  {
  }

  /** Mapping a permutation gives a permutation of the mapped elements. */
  lemma {:induction false} MapPermutation<A, B>(f: A -> B, xs: seq<A>, ys: seq<A>)
    requires multiset(xs) == multiset(ys)
    ensures multiset(Map(f, xs)) == multiset(Map(f, ys))
    decreases |xs|
  {
    if xs == [] {
      assert |multiset(ys)| == 0;
      assert ys == [];
    } else {
      assert xs[0] in multiset(ys);
      var k :| 0 <= k < |ys| && ys[k] == xs[0];
      WithoutMultiset(xs, 0);
      WithoutMultiset(ys, k);
      MapPermutation(f, Without(xs, 0), Without(ys, k));
      assert Map(f, Without(xs, 0)) == Without(Map(f, xs), 0);
      assert Map(f, Without(ys, k)) == Without(Map(f, ys), k);
      WithoutMultiset(Map(f, xs), 0);
      WithoutMultiset(Map(f, ys), k);
      var fx := multiset(Map(f, xs));
      var fy := multiset(Map(f, ys));
      var e := f(xs[0]);
      assert Map(f, xs)[0] == e && Map(f, ys)[k] == e;
      assert fx == (fx - multiset{e}) + multiset{e};
      assert fy == (fy - multiset{e}) + multiset{e};
    }
  }

  ghost predicate NoDuplicates<T>(s: seq<T>) {
    forall i, j :: 0 <= i < j < |s| ==> s[i] != s[j]
  }

  lemma {:induction false} NoDuplicatesInMultiset<T>(s: seq<T>, x: T)
    requires NoDuplicates(s)
    ensures multiset(s)[x] <= 1
  {
    if s != [] {
      var init, last := s[..|s| - 1], s[|s| - 1];
      assert s == init + [last];
      NoDuplicatesInMultiset(init, x);
      assert x == last ==> x !in init;
    }
  }

  /** A permutation of a sequence without duplicates has none either. */
  lemma NoDuplicatesPermutes<T>(s: seq<T>, t: seq<T>)
    requires NoDuplicates(s) && multiset(s) == multiset(t)
    ensures NoDuplicates(t)
  {
    forall i, j | 0 <= i < j < |t| ensures t[i] != t[j] {
      NoDuplicatesInMultiset(s, t[j]);
      var pre, post := t[..j], t[j + 1..];
      assert t == pre + ([t[j]] + post);
      assert t[i] == pre[i];
      MiddleMultiset(pre, [t[j]], post);
      assert multiset(t)[t[j]] == multiset(pre + post)[t[j]] + 1;
      assert pre[i] in pre + post;
    }
  }

  /** Behind `k` pieces of length `b` the next piece starts at `k * b`. */
  lemma {:induction false} ConcatOffset<T>(ss: seq<seq<T>>, b: nat, k: nat)
    requires k < |ss| && forall j :: 0 <= j < k ==> |ss[j]| == b
    ensures k * b + |ss[k]| <= |Concat(ss)| && Concat(ss)[k * b..k * b + |ss[k]|] == ss[k]
    decreases k
  {
    if k > 0 {
      ConcatOffset(ss[1..], b, k - 1);
      var rest, at := Concat(ss[1..]), (k - 1) * b;
      assert k * b == b + at;
      assert (ss[0] + rest)[b + at..b + at + |ss[k]|] == rest[at..at + |ss[k]|];
    }
  }
}
