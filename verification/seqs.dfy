/**
 Generic facts about finite sequences used by the schema model: duplicate-free
 sequences, first-occurrence de-duplication (the key order of a Python dict built
 by a comprehension) and the subsequence order.
 */
module Seqs {

  /** No element occurs twice. */
  predicate NoDups<T(==)>(s: seq<T>) {
    forall i, j | 0 <= i < j < |s| :: s[i] != s[j]
  }

  /** The position of the first occurrence of `x` in `s`. */
  function FirstIndex<T(==)>(s: seq<T>, x: T): (k: nat)
    requires x in s
    ensures k < |s| && s[k] == x && x !in s[..k]
  {
    if s[0] == x then 0
    else
      assert s == [s[0]] + s[1..];
      var k := FirstIndex(s[1..], x);
      assert s[..k + 1] == [s[0]] + s[1..][..k];
      k + 1
  }

  /** Only the first occurrence of `x` has no earlier copy of `x`. */
  lemma FirstIndexUnique<T>(s: seq<T>, x: T, k: nat)
    requires k < |s| && s[k] == x && x !in s[..k]
    ensures FirstIndex(s, x) == k
  {
  }

  /** The distinct elements of `s`, each at the position of its first occurrence. */
  function Dedup<T(==)>(s: seq<T>): (r: seq<T>)
    ensures NoDups(r)
    ensures forall x | x in r :: x in s
    ensures forall x | x in s :: x in r
    ensures |r| <= |s|
    ensures NoDups(s) ==> r == s
  {
    if s == [] then []
    else
      var front, x := s[..|s| - 1], s[|s| - 1];
      var r0 := Dedup(front);
      assert s == front + [x];
      if x in r0 then r0 else r0 + [x]
  }

  /** Every element of `r` occurs in `s`, and `r` lists them in the order of their first
      occurrences in `s`. */
  predicate InFirstOrder<T(==)>(s: seq<T>, r: seq<T>) {
    && (forall x | x in r :: x in s)
    && forall i, j | 0 <= i < j < |r| :: FirstIndex(s, r[i]) < FirstIndex(s, r[j])
  }

  /** `Dedup` lists the distinct elements in the order of their first occurrences. */
  lemma {:induction false} DedupFirstOrder<T>(s: seq<T>)
    ensures InFirstOrder(s, Dedup(s))
  {
    if s != [] {
      var front, x := s[..|s| - 1], s[|s| - 1];
      var r0 := Dedup(front);
      assert s == front + [x];
      assert Dedup(s) == if x in r0 then r0 else r0 + [x];
      DedupFirstOrder(front);
      DedupOrderStep(front, x, r0);
    }
  }

  /** The first-occurrence order of `Dedup` carries over from a prefix to one more
      element. */
  lemma DedupOrderStep<T>(front: seq<T>, x: T, r0: seq<T>)
    requires forall y | y in front :: y in r0
    requires InFirstOrder(front, r0)
    ensures InFirstOrder(front + [x], if x in r0 then r0 else r0 + [x])
  {
    var s := front + [x];
    forall y | y in front ensures FirstIndex(s, y) == FirstIndex(front, y) {
      var k := FirstIndex(front, y);
      assert s[k] == y && s[..k] == front[..k];
      FirstIndexUnique(s, y, k);
    }
    if x !in r0 {
      DedupOrderAppend(front, x, r0);
    } else {
      forall i, j | 0 <= i < j < |r0| ensures FirstIndex(s, r0[i]) < FirstIndex(s, r0[j]) {
        assert r0[i] in front && r0[j] in front;
      }
    }
  }

  /** The new-element case of `DedupOrderStep`: an element first seen at the end goes
      after everything already kept. */
  lemma DedupOrderAppend<T>(front: seq<T>, x: T, r0: seq<T>)
    requires forall y | y in r0 :: y in front
    requires x !in r0
    requires forall y | y in front :: y in r0
    requires forall i, j | 0 <= i < j < |r0| ::
               FirstIndex(front + [x], r0[i]) < FirstIndex(front + [x], r0[j])
    requires forall y | y in front :: FirstIndex(front + [x], y) == FirstIndex(front, y)
    ensures InFirstOrder(front + [x], r0 + [x])
  {
    var s, r := front + [x], r0 + [x];
    assert s[|front|] == x && s[..|front|] == front;
    FirstIndexUnique(s, x, |front|);
    forall i, j | 0 <= i < j < |r| ensures FirstIndex(s, r[i]) < FirstIndex(s, r[j]) {
      assert r[i] == r0[i] && r0[i] in front;
      if j < |r0| {
        assert r[j] == r0[j] && r0[j] in front;
      }
    }
  }

  /** `xs` is obtained from `ys` by deleting elements: it keeps their relative order. */
  predicate IsSubseq<T(==)>(xs: seq<T>, ys: seq<T>)
    decreases |ys|
  {
    if xs == [] then true
    else if ys == [] then false
    else if xs[|xs| - 1] == ys[|ys| - 1] then IsSubseq(xs[..|xs| - 1], ys[..|ys| - 1])
    else IsSubseq(xs, ys[..|ys| - 1])
  }

  /** Every element of a subsequence is an element of the whole. */
  lemma {:induction false} SubseqMembers<T>(xs: seq<T>, ys: seq<T>)
    requires IsSubseq(xs, ys)
    ensures forall x | x in xs :: x in ys
    decreases |ys|
  {
    if xs == [] {
    } else if xs[|xs| - 1] == ys[|ys| - 1] {
      SubseqMembers(xs[..|xs| - 1], ys[..|ys| - 1]);
      assert xs == xs[..|xs| - 1] + [xs[|xs| - 1]];
      assert ys == ys[..|ys| - 1] + [ys[|ys| - 1]];
    } else {
      SubseqMembers(xs, ys[..|ys| - 1]);
      assert ys == ys[..|ys| - 1] + [ys[|ys| - 1]];
    }
  }

  /** A subsequence of a duplicate-free sequence is duplicate-free. */
  lemma {:induction false} SubseqNoDups<T>(xs: seq<T>, ys: seq<T>)
    requires IsSubseq(xs, ys) && NoDups(ys)
    ensures NoDups(xs)
    decreases |ys|
  {
    if xs == [] {
    } else if xs[|xs| - 1] == ys[|ys| - 1] {
      var xs', ys' := xs[..|xs| - 1], ys[..|ys| - 1];
      SubseqNoDups(xs', ys');
      SubseqMembers(xs', ys');
      assert ys[|ys| - 1] !in ys';
      assert xs == xs' + [xs[|xs| - 1]];
    } else {
      SubseqNoDups(xs, ys[..|ys| - 1]);
    }
  }

  /** Dropping the last element of a subsequence leaves a subsequence. */
  lemma {:induction false} SubseqDropLast<T>(xs: seq<T>, ys: seq<T>)
    requires IsSubseq(xs, ys) && xs != []
    ensures IsSubseq(xs[..|xs| - 1], ys)
    decreases |ys|, 0
  {
    var xs' := xs[..|xs| - 1];
    if xs[|xs| - 1] == ys[|ys| - 1] {
      SubseqExtend(xs', ys[..|ys| - 1], ys[|ys| - 1]);
      assert ys[..|ys| - 1] + [ys[|ys| - 1]] == ys;
    } else {
      SubseqDropLast(xs, ys[..|ys| - 1]);
      SubseqExtend(xs', ys[..|ys| - 1], ys[|ys| - 1]);
      assert ys[..|ys| - 1] + [ys[|ys| - 1]] == ys;
    }
  }

  /** Appending to the whole keeps a subsequence a subsequence. */
  lemma {:induction false} SubseqExtend<T>(xs: seq<T>, ys: seq<T>, y: T)
    requires IsSubseq(xs, ys)
    ensures IsSubseq(xs, ys + [y])
    decreases |ys|, 1
  {
    if xs != [] && xs[|xs| - 1] == y {
      SubseqDropLast(xs, ys);
    }
    assert (ys + [y])[..|ys|] == ys;
  }

  /** Appending the same element to both sides keeps a subsequence a subsequence. */
  lemma SubseqAppendBoth<T>(xs: seq<T>, ys: seq<T>, y: T)
    requires IsSubseq(xs, ys)
    ensures IsSubseq(xs + [y], ys + [y])
  {
    assert (xs + [y])[..|xs|] == xs;
    assert (ys + [y])[..|ys|] == ys;
  }

  /** Concatenating two duplicate-free sequences with no common element gives a
      duplicate-free sequence. */
  lemma NoDupsConcat<T>(xs: seq<T>, ys: seq<T>)
    requires NoDups(xs) && NoDups(ys)
    requires forall x | x in xs :: x !in ys
    ensures NoDups(xs + ys)
  {
    forall i, j | 0 <= i < j < |xs + ys| ensures (xs + ys)[i] != (xs + ys)[j] {
      if j >= |xs| && i < |xs| {
        assert (xs + ys)[i] in xs && (xs + ys)[j] in ys;
      }
    }
  }
}
