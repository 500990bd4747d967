/**
  Python's `sorted(xs, key=..., reverse=...)` over the values device_lib.py sorts by:
  numbers (ints and floats compare by value) and strings (compared code point by
  code point). `sorted` is stable, also with `reverse=True`, so its result is the
  one arrangement of the positions 0..n-1 that is ordered by key and, among equal
  keys, by original position. StableOrder computes it by insertion.
*/
module Ranking {

  /** A sort key: a number (int or float) or a string. */
  datatype Rank = RNum(x: real) | RText(s: string)

  /** Python's `a < b` on two strings. */
  predicate TextLt(a: string, b: string)
    decreases |a|
  {
    if a == [] then b != []
    else if b == [] then false
    else if a[0] != b[0] then a[0] < b[0]
    else TextLt(a[1..], b[1..])
  }

  lemma {:induction false} TextLtIrreflexive(a: string)
    ensures !TextLt(a, a)
    decreases |a|
  {
    if a != [] {
      TextLtIrreflexive(a[1..]);
    }
  }

  lemma {:induction false} TextLtTransitive(a: string, b: string, c: string)
    requires TextLt(a, b) && TextLt(b, c)
    ensures TextLt(a, c)
    decreases |a|
  {
    if a != [] && b != [] && c != [] && a[0] == b[0] && b[0] == c[0] {
      TextLtTransitive(a[1..], b[1..], c[1..]);
    }
  }

  lemma {:induction false} TextLtTotal(a: string, b: string)
    requires a != b
    ensures TextLt(a, b) || TextLt(b, a)
    decreases |a|
  {
    if a != [] && b != [] && a[0] == b[0] {
      assert a == [a[0]] + a[1..] && b == [b[0]] + b[1..];
      TextLtTotal(a[1..], b[1..]);
    }
  }

  /**
    The order `sorted` uses on keys. Between a number and a string Python raises
    TypeError; the callers reject such key lists before sorting, so the order
    chosen here for mixed pairs is never observed.
  */
  predicate RankLt(a: Rank, b: Rank) {
    match (a, b)
    case (RNum(x), RNum(y)) => x < y
    case (RText(s), RText(t)) => TextLt(s, t)
    case (RNum(_), RText(_)) => true
    case (RText(_), RNum(_)) => false
  }

  lemma RankLtIrreflexive(a: Rank)
    ensures !RankLt(a, a)
  {
    if a.RText? {
      TextLtIrreflexive(a.s);
    }
  }

  lemma RankLtTransitive(a: Rank, b: Rank, c: Rank)
    requires RankLt(a, b) && RankLt(b, c)
    ensures RankLt(a, c)
  {
    if a.RText? && b.RText? && c.RText? {
      TextLtTransitive(a.s, b.s, c.s);
    }
  }

  lemma RankLtTotal(a: Rank, b: Rank)
    requires a != b
    ensures RankLt(a, b) || RankLt(b, a)
  {
    if a.RText? && b.RText? {
      TextLtTotal(a.s, b.s);
    }
  }

  /** All keys are numbers, or all are strings: the only key lists Python can sort. */
  predicate SameKind(ks: seq<Rank>) {
    forall i :: 0 <= i < |ks| ==> ks[i].RNum? == ks[0].RNum?
  }

  /** In the ascending (or, if `desc`, descending) order by key. */
  predicate KeyBefore(ks: seq<Rank>, desc: bool, a: nat, b: nat)
    requires a < |ks| && b < |ks|
  {
    if desc then RankLt(ks[b], ks[a]) else RankLt(ks[a], ks[b])
  }

  /** Position `a` of the input comes before position `b` in the stable sort by `ks`. */
  predicate Precedes(ks: seq<Rank>, desc: bool, a: nat, b: nat)
    requires a < |ks| && b < |ks|
  {
    KeyBefore(ks, desc, a, b) || (ks[a] == ks[b] && a < b)
  }

  lemma PrecedesIrreflexive(ks: seq<Rank>, desc: bool, a: nat)
    requires a < |ks|
    ensures !Precedes(ks, desc, a, a)
  {
    RankLtIrreflexive(ks[a]);
  }

  lemma PrecedesTransitive(ks: seq<Rank>, desc: bool, a: nat, b: nat, c: nat)
    requires a < |ks| && b < |ks| && c < |ks|
    requires Precedes(ks, desc, a, b) && Precedes(ks, desc, b, c)
    ensures Precedes(ks, desc, a, c)
  {
    if KeyBefore(ks, desc, a, b) && KeyBefore(ks, desc, b, c) {
      if desc {
        RankLtTransitive(ks[c], ks[b], ks[a]);
      } else {
        RankLtTransitive(ks[a], ks[b], ks[c]);
      }
    }
  }

  lemma PrecedesTotal(ks: seq<Rank>, desc: bool, a: nat, b: nat)
    requires a < |ks| && b < |ks| && a != b
    ensures Precedes(ks, desc, a, b) || Precedes(ks, desc, b, a)
  {
    if ks[a] != ks[b] {
      RankLtTotal(ks[a], ks[b]);
    }
  }

  lemma PrecedesAsymmetric(ks: seq<Rank>, desc: bool, a: nat, b: nat)
    requires a < |ks| && b < |ks|
    requires Precedes(ks, desc, a, b)
    ensures !Precedes(ks, desc, b, a)
  {
    if Precedes(ks, desc, b, a) {
      PrecedesTransitive(ks, desc, a, b, a);
      PrecedesIrreflexive(ks, desc, a);
    }
  }

  /** Every position in `p` is a position of `ks`. */
  predicate InRange(ks: seq<Rank>, p: seq<nat>) {
    forall i :: 0 <= i < |p| ==> p[i] < |ks|
  }

  /** The positions in `p` are listed in stable-sort order. */
  ghost predicate OrderedBy(ks: seq<Rank>, desc: bool, p: seq<nat>)
    requires InRange(ks, p)
  {
    forall i, j :: 0 <= i < j < |p| ==> Precedes(ks, desc, p[i], p[j])
  }

  /** The positions 0..n-1 in order. */
  function Range(n: nat): (r: seq<nat>)
    ensures |r| == n && forall i :: 0 <= i < n ==> r[i] == i
  {
    seq(n, i requires 0 <= i < n => i)
  }

  /** `p` is a rearrangement of the positions 0..n-1. */
  ghost predicate IsPermutation(p: seq<nat>, n: nat) {
    multiset(p) == multiset(Range(n))
  }

  /** A position that precedes every position of an ordered list can be put in front of it. */
  lemma ConsOrdered(ks: seq<Rank>, desc: bool, y: nat, t: seq<nat>)
    requires y < |ks| && InRange(ks, t) && OrderedBy(ks, desc, t)
    requires forall j :: 0 <= j < |t| ==> Precedes(ks, desc, y, t[j])
    ensures InRange(ks, [y] + t) && OrderedBy(ks, desc, [y] + t)
  {
    var r := [y] + t;
    forall i, j | 0 <= i < j < |r|
      ensures Precedes(ks, desc, r[i], r[j])
    {
      if i > 0 {
        assert r[i] == t[i - 1] && r[j] == t[j - 1];
      } else {
        assert r[j] == t[j - 1];
      }
    }
  }

  /** A position that precedes the head of an ordered list precedes all of it. */
  lemma PrecedesAll(ks: seq<Rank>, desc: bool, x: nat, s: seq<nat>)
    requires x < |ks| && InRange(ks, s) && OrderedBy(ks, desc, s) && s != []
    requires Precedes(ks, desc, x, s[0])
    ensures forall j :: 0 <= j < |s| ==> Precedes(ks, desc, x, s[j])
  {
    forall j | 0 < j < |s|
      ensures Precedes(ks, desc, x, s[j])
    {
      PrecedesTransitive(ks, desc, x, s[0], s[j]);
    }
  }

  /** The head of an ordered list precedes everything inserted behind it. */
  lemma HeadPrecedes(ks: seq<Rank>, desc: bool, x: nat, s: seq<nat>, t: seq<nat>)
    requires x < |ks| && InRange(ks, s) && OrderedBy(ks, desc, s) && s != [] && x !in s
    requires !Precedes(ks, desc, x, s[0])
    requires InRange(ks, t) && multiset(t) == multiset(s[1..]) + multiset{x}
    ensures forall j :: 0 <= j < |t| ==> Precedes(ks, desc, s[0], t[j])
  {
    PrecedesTotal(ks, desc, x, s[0]);
    forall j | 0 <= j < |t|
      ensures Precedes(ks, desc, s[0], t[j])
    {
      assert t[j] in multiset(t);
      if t[j] != x {
        assert t[j] in multiset(s[1..]);
        var k :| 0 <= k < |s[1..]| && s[1..][k] == t[j];
        assert s[k + 1] == t[j];
      }
    }
  }

  /** Puts position `x` into the stably ordered list `s` of other positions. */
  function Insert(ks: seq<Rank>, desc: bool, x: nat, s: seq<nat>): (r: seq<nat>)
    requires x < |ks| && InRange(ks, s) && OrderedBy(ks, desc, s) && x !in s
    ensures multiset(r) == multiset(s) + multiset{x}
    ensures InRange(ks, r) && OrderedBy(ks, desc, r)
  {
    if s == [] then [x]
    else if Precedes(ks, desc, x, s[0]) then
      PrecedesAll(ks, desc, x, s);
      ConsOrdered(ks, desc, x, s);
      [x] + s
    else
      assert s == [s[0]] + s[1..];
      var t := Insert(ks, desc, x, s[1..]);
      HeadPrecedes(ks, desc, x, s, t);
      ConsOrdered(ks, desc, s[0], t);
      [s[0]] + t
  }

  /** A rearrangement of 0..n-2 lacks n-1; adding it gives a rearrangement of 0..n-1. */
  lemma PermutationStep(s: seq<nat>, r: seq<nat>, n: nat)
    requires n > 0 && IsPermutation(s, n - 1)
    ensures n - 1 !in s
    ensures multiset(r) == multiset(s) + multiset{(n - 1) as nat} ==> IsPermutation(r, n)
  {
    assert Range(n) == Range(n - 1) + [n - 1];
    assert n - 1 !in multiset(Range(n - 1));
  }

  /** The stable-sort order of the positions 0..n-1 of `ks`. */
  function StableOrderUpTo(ks: seq<Rank>, desc: bool, n: nat): (p: seq<nat>)
    requires n <= |ks|
    ensures IsPermutation(p, n)
    ensures InRange(ks, p) && OrderedBy(ks, desc, p)
  {
    if n == 0 then []
    else
      var s := StableOrderUpTo(ks, desc, n - 1);
      PermutationStep(s, [], n);
      var r := Insert(ks, desc, n - 1, s);
      PermutationStep(s, r, n);
      r
  }

  /** The order in which Python's stable `sorted` lists the positions of `ks`. */
  function StableOrder(ks: seq<Rank>, desc: bool): (p: seq<nat>)
    ensures IsPermutation(p, |ks|)
    ensures InRange(ks, p) && OrderedBy(ks, desc, p)
  {
    StableOrderUpTo(ks, desc, |ks|)
  }

  /**
    A stable sort has only one possible result: any other listing of the same
    positions in stable-sort order is StableOrder itself.
  */
  lemma {:induction false} OrderedUnique(ks: seq<Rank>, desc: bool, p: seq<nat>, q: seq<nat>)
    requires InRange(ks, p) && InRange(ks, q)
    requires OrderedBy(ks, desc, p) && OrderedBy(ks, desc, q)
    requires multiset(p) == multiset(q)
    ensures p == q
    decreases |p|
  {
    if p == [] {
      assert |multiset(q)| == 0;
    } else {
      HeadsAgree(ks, desc, p, q);
      RemoveMatching(p, q, 0);
      assert q[..0] + q[1..] == q[1..];
      TailOrdered(ks, desc, p);
      TailOrdered(ks, desc, q);
      OrderedUnique(ks, desc, p[1..], q[1..]);
      assert p == [p[0]] + p[1..] && q == [q[0]] + q[1..];
    }
  }

  /** Two stably ordered listings of the same positions start with the same one. */
  lemma HeadsAgree(ks: seq<Rank>, desc: bool, p: seq<nat>, q: seq<nat>)
    requires InRange(ks, p) && InRange(ks, q)
    requires OrderedBy(ks, desc, p) && OrderedBy(ks, desc, q)
    requires multiset(p) == multiset(q) && p != []
    ensures q != [] && p[0] == q[0]
  {
    var m := FindPosition(q, p[0]);
    if p[0] != q[0] {
      var k := FindPosition(p, q[0]);
      assert Precedes(ks, desc, p[0], q[0]);
      PrecedesAsymmetric(ks, desc, p[0], q[0]);
      assert false;
    }
  }

  lemma TailOrdered(ks: seq<Rank>, desc: bool, p: seq<nat>)
    requires InRange(ks, p) && OrderedBy(ks, desc, p) && p != []
    ensures InRange(ks, p[1..]) && OrderedBy(ks, desc, p[1..])
  {
    forall i, j | 0 <= i < j < |p[1..]|
      ensures Precedes(ks, desc, p[1..][i], p[1..][j])
    {
      assert p[1..][i] == p[i + 1] && p[1..][j] == p[j + 1];
    }
  }

  lemma StableOrderUnique(ks: seq<Rank>, desc: bool, p: seq<nat>)
    requires InRange(ks, p) && IsPermutation(p, |ks|) && OrderedBy(ks, desc, p)
    ensures p == StableOrder(ks, desc)
  {
    OrderedUnique(ks, desc, p, StableOrder(ks, desc));
  }

  /** Every position 0..n-1 appears in a permutation of them. */
  lemma PermutationCovers(p: seq<nat>, n: nat, k: nat)
    requires IsPermutation(p, n) && k < n
    ensures k in p
  {
    assert Range(n)[k] == k;
    assert k in multiset(Range(n));
  }

  /** `[xs[i] for i in p]`. */
  function Permute<T>(xs: seq<T>, p: seq<nat>): (r: seq<T>)
    requires forall i :: 0 <= i < |p| ==> p[i] < |xs|
    ensures |r| == |p| && forall i :: 0 <= i < |p| ==> r[i] == xs[p[i]]
  {
    seq(|p|, i requires 0 <= i < |p| => xs[p[i]])
  }

  lemma RemoveAt<U>(s: seq<U>, k: nat)
    requires k < |s|
    ensures multiset(s) == multiset(s[..k] + s[k + 1..]) + multiset{s[k]}
  {
    assert s == s[..k] + [s[k]] + s[k + 1..];
  }

  lemma PermuteRemoveAt<T>(xs: seq<T>, q: seq<nat>, k: nat)
    requires forall i :: 0 <= i < |q| ==> q[i] < |xs|
    requires k < |q|
    ensures multiset(Permute(xs, q)) == multiset(Permute(xs, q[..k] + q[k + 1..])) + multiset{xs[q[k]]}
  {
    var r := Permute(xs, q);
    assert Permute(xs, q[..k] + q[k + 1..]) == r[..k] + r[k + 1..];
    RemoveAt(r, k);
  }

  lemma MultisetCancel<U>(a: multiset<U>, b: multiset<U>, x: U)
    requires a + multiset{x} == b + multiset{x}
    ensures a == b
  {
    assert a == (a + multiset{x}) - multiset{x};
    assert b == (b + multiset{x}) - multiset{x};
  }

  lemma RemoveMatching<U>(p: seq<U>, q: seq<U>, k: nat)
    requires p != [] && k < |q| && q[k] == p[0]
    requires multiset(p) == multiset(q)
    ensures multiset(p[1..]) == multiset(q[..k] + q[k + 1..])
  {
    RemoveAt(q, k);
    RemoveAt(p, 0);
    assert p[..0] + p[1..] == p[1..];
    MultisetCancel(multiset(p[1..]), multiset(q[..k] + q[k + 1..]), p[0]);
  }

  /** Rearrangements of the same positions pick the same multiset of elements. */
  lemma {:induction false} PermuteMultiset<T>(xs: seq<T>, p: seq<nat>, q: seq<nat>)
    requires forall i :: 0 <= i < |p| ==> p[i] < |xs|
    requires forall i :: 0 <= i < |q| ==> q[i] < |xs|
    requires multiset(p) == multiset(q)
    ensures multiset(Permute(xs, p)) == multiset(Permute(xs, q))
    decreases |p|
  {
    if p == [] {
      assert |q| == |multiset(q)| == 0;
    } else {
      var k := FindPosition(q, p[0]);
      var p', q' := p[1..], q[..k] + q[k + 1..];
      RemoveKeepsBounds(q, k, |xs|, q');
      RemoveMatching(p, q, k);
      PermuteMultiset(xs, p', q');
      PermuteRemoveAt(xs, q, k);
      PermuteRemoveHead(xs, p);
    }
  }

  /** A position at which an element of the multiset of `q` occurs. */
  lemma FindPosition<U>(q: seq<U>, x: U) returns (k: nat)
    requires x in multiset(q)
    ensures k < |q| && q[k] == x
  {
    assert x in q;
    k :| 0 <= k < |q| && q[k] == x;
  }

  lemma RemoveKeepsBounds(q: seq<nat>, k: nat, n: nat, r: seq<nat>)
    requires k < |q| && forall i :: 0 <= i < |q| ==> q[i] < n
    requires r == q[..k] + q[k + 1..]
    ensures forall i :: 0 <= i < |r| ==> r[i] < n
  {
    forall i | 0 <= i < |r|
      ensures r[i] < n
    {
      assert r[i] == if i < k then q[i] else q[i + 1];
    }
  }

  lemma PermuteRemoveHead<T>(xs: seq<T>, p: seq<nat>)
    requires forall i :: 0 <= i < |p| ==> p[i] < |xs|
    requires p != []
    ensures multiset(Permute(xs, p)) == multiset(Permute(xs, p[1..])) + multiset{xs[p[0]]}
  {
    assert Permute(xs, p) == [xs[p[0]]] + Permute(xs, p[1..]);
  }

  /** Listing the elements of `xs` in the order of a permutation of its positions keeps its multiset. */
  lemma PermutationKeepsElements<T>(xs: seq<T>, p: seq<nat>)
    requires IsPermutation(p, |xs|)
    requires forall i :: 0 <= i < |p| ==> p[i] < |xs|
    ensures |Permute(xs, p)| == |xs|
    ensures multiset(Permute(xs, p)) == multiset(xs)
  {
    assert |p| == |multiset(p)| == |multiset(Range(|xs|))| == |xs|;
    PermuteMultiset(xs, p, Range(|xs|));
    assert Permute(xs, Range(|xs|)) == xs;
  }
}
