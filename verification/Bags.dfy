/** Sequences seen as bags: deleting, marking and reordering elements. */
module Bags {

  /** Deleting one element of a slice. */
  function RemoveAt<T>(s: seq<T>, i: nat): (r: seq<T>)
    requires i < |s|
    ensures |r| == |s| - 1
  {
    s[..i] + s[i + 1..]
  }

  lemma MultisetWithout<T>(s: seq<T>, i: nat)
    requires i < |s|
    ensures multiset(s) == multiset(RemoveAt(s, i)) + multiset{s[i]}
  {
    assert s == s[..i] + ([s[i]] + s[i + 1..]);
  }

  lemma Extended<T>(s: seq<T>, x: T)
    ensures (s + [x])[..|s|] == s && multiset(s + [x]) == multiset(s) + multiset{x}
  {
  }

  lemma SplitLast<T>(s: seq<T>)
    requires s != []
    ensures s == s[..|s| - 1] + [s[|s| - 1]]
    ensures multiset(s) == multiset(s[..|s| - 1]) + multiset{s[|s| - 1]}
  {
  }

  /** Where the last element of a smaller bag sits in the larger one, and that the rest still fits. */
  lemma TakeOne<T>(a: seq<T>, b: seq<T>) returns (i: nat)
    requires a != [] && multiset(a) <= multiset(b)
    ensures i < |b| && b[i] == a[|a| - 1] && multiset(a[..|a| - 1]) <= multiset(RemoveAt(b, i))
  {
    var k := |a| - 1;
    SplitLast(a);
    assert a[k] in multiset(a) && a[k] in multiset(b);
    i :| 0 <= i < |b| && b[i] == a[k];
    MultisetWithout(b, i);
    forall y ensures multiset(a[..k])[y] <= multiset(RemoveAt(b, i))[y] {
      assert multiset(a)[y] <= multiset(b)[y];
    }
  }

  lemma SubsetOfSameSize<T>(a: multiset<T>, b: multiset<T>)
    requires a <= b && |a| == |b|
    ensures a == b
  {
    assert b == a + (b - a);
    assert |b - a| == 0;
  }

  lemma BelowBoth<T>(a: multiset<T>, b: multiset<T>, c: multiset<T>)
    requires a <= b && a <= c
    ensures |a| <= |b * c|
  {
    var d := b * c;
    assert a <= d;
    assert d == a + (d - a);
  }

  /** If the two rests have nothing in common, the common part is the intersection. */
  lemma CommonPart<T>(a: multiset<T>, b: multiset<T>, left: multiset<T>, right: multiset<T>, common: multiset<T>)
    requires a == left + common && b == right + common
    requires forall x :: left[x] == 0 || right[x] == 0
    ensures common == a * b
  {
  }

  /** A prefix that is one element longer. */
  lemma NextPrefix<T>(s: seq<T>, n: nat)
    requires n < |s|
    ensures s[..n + 1] == s[..n] + [s[n]]
  {
  }

  // ----- marked positions -----

  /** The elements at the positions that are marked (or not). */
  function Marked<T>(s: seq<T>, marks: seq<bool>, mark: bool): multiset<T>
    requires |s| == |marks|
  {
    if s == [] then multiset{}
    else
      var k := |s| - 1;
      Marked(s[..k], marks[..k], mark) + if marks[k] == mark then multiset{s[k]} else multiset{}
  }

  lemma {:induction false} MarkedPartition<T>(s: seq<T>, marks: seq<bool>)
    requires |s| == |marks|
    ensures multiset(s) == Marked(s, marks, true) + Marked(s, marks, false)
  {
    if s != [] {
      MarkedPartition(s[..|s| - 1], marks[..|s| - 1]);
      SplitLast(s);
    }
  }

  lemma {:induction false} NoneMarked<T>(s: seq<T>, marks: seq<bool>)
    requires |s| == |marks| && forall i | 0 <= i < |marks| :: !marks[i]
    ensures Marked(s, marks, true) == multiset{}
  {
    if s != [] { NoneMarked(s[..|s| - 1], marks[..|s| - 1]); }
  }

  lemma BagCommutes<T>(a: multiset<T>, b: multiset<T>, c: multiset<T>)
    ensures a + b + c == a + c + b
  {
  }

  lemma BagAssociates<T>(a: multiset<T>, b: multiset<T>, c: multiset<T>)
    ensures a + b + c == a + (b + c)
  {
  }

  /** Moving x from r to p, where c is both together. */
  lemma BagTransfers<T>(c: multiset<T>, r: multiset<T>, rest: multiset<T>, p: multiset<T>, x: multiset<T>)
    requires c == r + p && r == rest + x
    ensures c == rest + (p + x)
  {
    BagCommutes(rest, x, p);
    BagAssociates(rest, p, x);
  }

  /** Moving x from one bag to another keeps the sum. */
  lemma BagMoves<T>(a: multiset<T>, b: multiset<T>, c: multiset<T>, x: multiset<T>)
    ensures a + b + (c + x) == a + (b + x) + c
  {
  }

  lemma BagCancels<T>(a: multiset<T>, b: multiset<T>, x: T)
    requires a + multiset{x} == b + multiset{x}
    ensures a == b
  {
    assert a == (a + multiset{x}) - multiset{x} && b == (b + multiset{x}) - multiset{x};
  }

  ghost function MarkedIn<T>(x: T, mark: bool): multiset<T> {
    if mark then multiset{x} else multiset{}
  }

  lemma MarkedLast<T>(s: seq<T>, marks: seq<bool>)
    requires |s| == |marks| && s != []
    ensures var k := |s| - 1; Marked(s, marks, true) == Marked(s[..k], marks[..k], true) + MarkedIn(s[k], marks[k])
  {
  }

  lemma {:induction false} MarkOne<T>(s: seq<T>, marks: seq<bool>, i: nat)
    requires i < |s| == |marks| && !marks[i]
    ensures Marked(s, marks[i := true], true) == Marked(s, marks, true) + multiset{s[i]}
  {
    var k := |s| - 1;
    var before, now := Marked(s[..k], marks[..k], true), marks[i := true];
    MarkedLast(s, marks);
    MarkedLast(s, now);
    if i == k {
      assert now[..k] == marks[..k];
    } else {
      assert now[..k] == marks[..k][i := true] && now[k] == marks[k];
      MarkOne(s[..k], marks[..k], i);
      BagCommutes(before, multiset{s[i]}, MarkedIn(s[k], marks[k]));
    }
  }

  lemma {:induction false} UnmarkedMember<T>(s: seq<T>, marks: seq<bool>, x: T)
    requires |s| == |marks| && x in Marked(s, marks, false)
    ensures exists i :: 0 <= i < |s| && !marks[i] && s[i] == x
  {
    var k := |s| - 1;
    if !(!marks[k] && s[k] == x) {
      UnmarkedMember(s[..k], marks[..k], x);
      var i :| 0 <= i < k && !marks[..k][i] && s[..k][i] == x;
      assert !marks[i] && s[i] == x;
    }
  }

  lemma MoreInWhole<T>(s: seq<T>, k: nat, x: T)
    requires k < |s| && s[k] == x
    ensures multiset(s)[x] > multiset(s[..k])[x]
  {
    assert s == s[..k] + ([x] + s[k + 1..]);
  }

  /** If the marked elements are the first ones of `other` and no unmarked element equals the next one, the bags
      differ. */
  lemma NextIsMissing<T>(s: seq<T>, marks: seq<bool>, other: seq<T>, k: nat)
    requires |s| == |marks| && k < |other| && Marked(s, marks, true) == multiset(other[..k])
    requires forall i | 0 <= i < |s| && !marks[i] :: s[i] != other[k]
    ensures multiset(s) != multiset(other)
  {
    MarkedPartition(s, marks);
    var x := other[k];
    if x in Marked(s, marks, false) { UnmarkedMember(s, marks, x); }
    assert Marked(s, marks, false)[x] == 0;
    MoreInWhole(other, k, x);
  }

  /** If the marked elements are all of an equally long `other`, the bags agree. */
  lemma AllFound<T>(s: seq<T>, marks: seq<bool>, other: seq<T>)
    requires |s| == |marks| == |other| && Marked(s, marks, true) == multiset(other)
    ensures multiset(s) == multiset(other)
  {
    MarkedPartition(s, marks);
    assert |multiset(s)| == |s| && |multiset(other)| == |other|;
    SubsetOfSameSize(multiset(other), multiset(s));
  }

  lemma DifferentLengths<T>(s: seq<T>, other: seq<T>)
    requires |s| != |other|
    ensures multiset(s) != multiset(other)
  {
    assert |multiset(s)| == |s| && |multiset(other)| == |other|;
  }

  // ----- bags of bags -----

  /** What all elements contribute together. */
  function Tally<S, T>(s: seq<S>, f: S -> multiset<T>): multiset<T> {
    if s == [] then multiset{} else Tally(s[..|s| - 1], f) + f(s[|s| - 1])
  }

  lemma TallyExtended<S, T>(s: seq<S>, x: S, f: S -> multiset<T>)
    ensures Tally(s + [x], f) == Tally(s, f) + f(x)
  {
  }

  lemma {:induction false} TallyWithout<S, T>(s: seq<S>, i: nat, f: S -> multiset<T>)
    requires i < |s|
    ensures Tally(s, f) == Tally(RemoveAt(s, i), f) + f(s[i])
  {
    var k := |s| - 1;
    if i == k {
      assert RemoveAt(s, i) == s[..k];
    } else {
      assert RemoveAt(s, i) == RemoveAt(s[..k], i) + [s[k]];
      TallyWithout(s[..k], i, f);
      TallyExtended(RemoveAt(s[..k], i), s[k], f);
      BagCommutes(Tally(RemoveAt(s[..k], i), f), f(s[i]), f(s[k]));
    }
  }

  lemma {:induction false} TallyMember<S, T>(s: seq<S>, f: S -> multiset<T>, y: T)
    ensures y in Tally(s, f) <==> exists x :: x in s && y in f(x)
  {
    if s != [] {
      var k := |s| - 1;
      TallyMember(s[..k], f, y);
      assert s == s[..k] + [s[k]];
      if y in f(s[k]) { assert s[k] in s; }
    }
  }

  /** If every element contributes one, the tally counts the elements. */
  lemma {:induction false} TallyOfOnes<S, T>(s: seq<S>, f: S -> multiset<T>)
    requires forall x | x in s :: |f(x)| == 1
    ensures |Tally(s, f)| == |s|
  {
    if s != [] { TallyOfOnes(s[..|s| - 1], f); }
  }

  // ----- reordering -----

  function Pick<T>(s: seq<T>, order: seq<nat>): (r: seq<T>)
    requires forall i | 0 <= i < |order| :: order[i] < |s|
    ensures |r| == |order| && forall i | 0 <= i < |r| :: r[i] == s[order[i]]
  {
    seq(|order|, i requires 0 <= i < |order| => s[order[i]])
  }

  ghost predicate IsPermutation(order: seq<nat>, n: nat) {
    multiset(order) == multiset(Upto(n))
  }

  function Upto(n: nat): (r: seq<nat>)
    ensures |r| == n && forall i | 0 <= i < n :: r[i] == i
  {
    seq(n, i => i)
  }

  lemma {:induction false} PickMultiset<T>(s: seq<T>, a: seq<nat>, b: seq<nat>)
    requires forall i | 0 <= i < |a| :: a[i] < |s|
    requires forall i | 0 <= i < |b| :: b[i] < |s|
    requires multiset(a) == multiset(b)
    ensures multiset(Pick(s, a)) == multiset(Pick(s, b))
    decreases |a|
  {
    assert |a| == |multiset(a)| == |multiset(b)| == |b|;
    if a == [] {
      assert Pick(s, a) == Pick(s, b);
    } else {
      var k := |a| - 1;
      var j := TakeOne(a, b);
      SplitLast(a);
      MultisetWithout(b, j);
      BagCancels(multiset(a[..k]), multiset(RemoveAt(b, j)), a[k]);
      PickMultiset(s, a[..k], RemoveAt(b, j));
      PickWithout(s, b, j);
      SplitLast(Pick(s, a));
      assert Pick(s, a)[..k] == Pick(s, a[..k]);
    }
  }

  lemma PickWithout<T>(s: seq<T>, order: seq<nat>, j: nat)
    requires j < |order| && forall i | 0 <= i < |order| :: order[i] < |s|
    ensures multiset(Pick(s, order)) == multiset(Pick(s, RemoveAt(order, j))) + multiset{s[order[j]]}
  {
    MultisetWithout(Pick(s, order), j);
    assert RemoveAt(Pick(s, order), j) == Pick(s, RemoveAt(order, j));
  }

  /** Reordering does not change the bag. */
  lemma PermutedBag<T>(s: seq<T>, order: seq<nat>)
    requires IsPermutation(order, |s|) && forall i | 0 <= i < |order| :: order[i] < |s|
    ensures multiset(Pick(s, order)) == multiset(s)
  {
    PickMultiset(s, order, Upto(|s|));
    assert Pick(s, Upto(|s|)) == s;
  }

  // ----- images -----

  /** Equal images still come from equal elements without the last of one side and one of the other. */
  lemma ImagesWithout<T, U>(a: seq<T>, b: seq<T>, x: seq<U>, y: seq<U>, k: nat, j: nat)
    requires k + 1 == |a| == |x| && j < |b| == |y|
    requires forall i, j | 0 <= i < |a| && 0 <= j < |b| && x[i] == y[j] :: a[i] == b[j]
    ensures forall p, q | 0 <= p < k && 0 <= q < |b| - 1 && x[..k][p] == RemoveAt(y, j)[q] ::
            a[..k][p] == RemoveAt(b, j)[q]
  {
  }

  /** If equal images come from equal elements, then equal bags of images come from equal bags. */
  lemma {:induction false} BagsFromImages<T, U>(a: seq<T>, b: seq<T>, x: seq<U>, y: seq<U>)
    requires |a| == |x| && |b| == |y| && multiset(x) == multiset(y)
    requires forall i, j | 0 <= i < |a| && 0 <= j < |b| && x[i] == y[j] :: a[i] == b[j]
    ensures multiset(a) == multiset(b)
    decreases |a|
  {
    assert |x| == |multiset(x)| == |multiset(y)| == |y|;
    if a == [] {
      assert b == [];
    } else {
      var k := |a| - 1;
      var j := TakeOne(x, y);
      SplitLast(a);
      SplitLast(x);
      MultisetWithout(b, j);
      MultisetWithout(y, j);
      BagCancels(multiset(x[..k]), multiset(RemoveAt(y, j)), x[k]);
      assert a[k] == b[j];
      ImagesWithout(a, b, x, y, k, j);
      BagsFromImages(a[..k], RemoveAt(b, j), x[..k], RemoveAt(y, j));
    }
  }
}
