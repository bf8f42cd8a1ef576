/**
 * Facts about sequence concatenation (and one about maps), stated once over
 * arbitrary element types so that proofs about tokens, pieces and scopes can
 * use them without reasoning about extensionality in their own, larger contexts.
 */
module Seqs {

  lemma ConcatAssoc<T>(a: seq<T>, b: seq<T>, c: seq<T>)
    ensures a + (b + c) == a + b + c
  {
  }

  /** A sequence built from four parts and a rest, grouped to the right. */
  lemma Regroup<T>(a: seq<T>, b: seq<T>, c: seq<T>, d: seq<T>, r: seq<T>)
    ensures a + b + c + d + r == a + (b + (c + (d + r)))
    ensures a + b + c + r == a + (b + (c + r))
  {
  }

  /** Appending three parts one at a time is appending their concatenation. */
  lemma AppendThree<T>(a: seq<T>, b: seq<T>, c: seq<T>, d: seq<T>)
    ensures a + b + c + d == a + (b + c + d)
  {
  }

  /** Two leading elements, then a middle, a separator and a rest, grouped to the right. */
  lemma RegroupPair<T>(x: T, y: T, m: seq<T>, d: seq<T>, r: seq<T>)
    ensures [x] + ([y] + m) + d + r == [x, y] + (m + (d + r))
  {
  }

  /** A non-empty sequence is its first element followed by the rest. */
  lemma HeadTail<T>(s: seq<T>)
    requires s != []
    ensures [s[0]] + s[1..] == s
  {
  }

  /** Dropping a prefix of two elements leaves what followed it, grouped to the right. */
  lemma DropTwo<T>(p: seq<T>, x: seq<T>, y: seq<T>, r: seq<T>)
    requires |p| == 2
    ensures |p + x + r| >= 2 && (p + x + r)[0] == p[0] && (p + x + r)[1] == p[1]
    ensures (p + x + r)[2..] == x + r
    ensures |p + x + y + r| >= 2 && (p + x + y + r)[0] == p[0] && (p + x + y + r)[1] == p[1]
    ensures (p + x + y + r)[2..] == x + (y + r)
  {
    assert (p + x + r)[2..] == x + r;
    assert (p + x + y + r)[2..] == x + y + r;
  }

  /** A slice extended by one element is the slice, then that element. */
  lemma SliceSnoc<T>(s: seq<T>, a: nat, b: nat)
    requires a <= b < |s|
    ensures s[a..b + 1] == s[a..b] + [s[b]]
  {
  }

  /** What lies below entries pushed on a stack is the stack as it was. */
  lemma Below1<T>(S: seq<T>, a: T)
    ensures (S + [a])[..|S|] == S
  {
  }

  lemma Below2<T>(S: seq<T>, a: T, b: T)
    ensures (S + [a] + [b])[..|S|] == S
  {
  }

  lemma Below3<T>(S: seq<T>, a: T, b: T, c: T)
    ensures (S + [a] + [b] + [c])[..|S|] == S
  {
  }

  lemma Below4<T>(S: seq<T>, a: T, b: T, c: T, d: T)
    ensures (S + [a] + [b] + [c] + [d])[..|S|] == S
  {
  }

  /** A non-empty sequence is everything but its last element, then that element. */
  lemma InitLast<T>(s: seq<T>)
    requires s != []
    ensures s[..|s| - 1] + [s[|s| - 1]] == s
  {
  }

  lemma EmptyLeft<T>(a: seq<T>)
    ensures [] + a == a
  {
  }

  /** Equal sequences with equal first elements have equal remainders. */
  lemma ConsInjective<T>(x: T, a: seq<T>, y: T, b: seq<T>)
    requires [x] + a == [y] + b
    ensures x == y && a == b
  {
    assert x == ([x] + a)[0];
    assert a == ([x] + a)[1..];
    assert b == ([y] + b)[1..];
  }

  /** Adding a key the map lacks and then removing it gives the map back. */
  lemma MapPushPop<K, V>(m: map<K, V>, k: K, v: V)
    requires k !in m
    ensures m[k := v] - {k} == m
  {
    assert forall q :: q in m[k := v] - {k} <==> q in m;
  }
}
