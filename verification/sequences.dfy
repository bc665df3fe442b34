/** The array operations the booking handler applies to a room's window:
    `indexOf` followed by `splice(index, 1)`, repeated over a list of values,
    together with the order and counting facts the rotation proofs use. */
module Sequences {

  /** Every element is smaller than every later element. */
  predicate StrictlyIncreasing(s: seq<int>) {
    forall i, j :: 0 <= i < j < |s| ==> s[i] < s[j]
  }

  /** No value occurs twice. */
  predicate Distinct(s: seq<int>) {
    forall i, j :: 0 <= i < j < |s| ==> s[i] != s[j]
  }

  /** `a` is obtained from `b` by deleting elements, so `a` keeps the
      relative order of what it retains from `b`. */
  predicate Subseq(a: seq<int>, b: seq<int>)
    decreases |b|
  {
    if |a| == 0 then true
    else if |b| == 0 then false
    else (a[0] == b[0] && Subseq(a[1..], b[1..])) || Subseq(a, b[1..])
  }

  /** `Array.prototype.indexOf` under `===`: the first position holding `x`,
      or -1 when there is none. */
  function IndexOf(s: seq<int>, x: int): (i: int)
    ensures -1 <= i < |s|
    ensures i == -1 <==> x !in s
    ensures 0 <= i ==> s[i] == x && x !in s[..i]
    decreases |s|
  {
    if |s| == 0 then -1
    else if s[0] == x then 0
    else
      var j := IndexOf(s[1..], x);
      // the prefix of the tail before `j` is the prefix of `s` after its head,
      // so `x !in s[1..][..j]` gives `x !in s[..j + 1]`
      assert s[1..][..(if j < 0 then 0 else j)] == s[1..(if j < 0 then 1 else j + 1)];
      if j == -1 then -1 else j + 1
  }

  /** `const index = a.indexOf(x); if (index > -1) { a.splice(index, 1) }`:
      the first occurrence of `x` is removed, if there is one. */
  function RemoveFirst(s: seq<int>, x: int): seq<int> {
    var i := IndexOf(s, x);
    if i > -1 then s[..i] + s[i + 1..] else s
  }

  /** `for (const y of xs) { <RemoveFirst y> }`: the first remaining occurrence of
      each element of `xs` is removed, in the order of `xs`. */
  function RemoveEach(s: seq<int>, xs: seq<int>): seq<int>
    decreases |xs|
  {
    if |xs| == 0 then s else RemoveEach(RemoveFirst(s, xs[0]), xs[1..])
  }

  /** Removing the first occurrence takes exactly one copy of `x` out of the
      multiset of values, and nothing when `x` is absent. */
  lemma RemoveFirstContents(s: seq<int>, x: int)
    ensures multiset(RemoveFirst(s, x)) == multiset(s) - multiset{x}
    ensures x in s ==> |RemoveFirst(s, x)| == |s| - 1
    ensures x !in s ==> RemoveFirst(s, x) == s
  {
    var i := IndexOf(s, x);
    if i > -1 {
      DropOneContents(s, i);
    } else {
      assert multiset(s)[x] == 0;
    }
  }

  /** Deleting position `i` takes exactly that value out of the multiset. */
  lemma DropOneContents(s: seq<int>, i: int)
    requires 0 <= i < |s|
    ensures multiset(s[..i] + s[i + 1..]) == multiset(s) - multiset{s[i]}
  {
    assert s == s[..i] + [s[i]] + s[i + 1..];
  }

  /** Removing each element of `xs` takes one copy of each of them out of
      the multiset of values (as far as copies remain). */
  lemma {:induction false} RemoveEachContents(s: seq<int>, xs: seq<int>)
    ensures multiset(RemoveEach(s, xs)) == multiset(s) - multiset(xs)
    decreases |xs|
  {
    if |xs| > 0 {
      var s' := RemoveFirst(s, xs[0]);
      assert xs == [xs[0]] + xs[1..];
      calc {
        multiset(RemoveEach(s, xs));
        multiset(RemoveEach(s', xs[1..]));
        { RemoveEachContents(s', xs[1..]); }
        multiset(s') - multiset(xs[1..]);
        { RemoveFirstContents(s, xs[0]); }
        (multiset(s) - multiset{xs[0]}) - multiset(xs[1..]);
        { MultisetDiffDiff(multiset(s), multiset{xs[0]}, multiset(xs[1..])); }
        multiset(s) - (multiset{xs[0]} + multiset(xs[1..]));
        multiset(s) - multiset(xs);
      }
    }
  }

  /** Subtracting twice is subtracting the sum. */
  lemma MultisetDiffDiff(a: multiset<int>, b: multiset<int>, c: multiset<int>)
    ensures (a - b) - c == a - (b + c)
  {
  }

  /** The size of a difference by a sub-multiset. */
  lemma MultisetDiffSize(a: multiset<int>, b: multiset<int>)
    requires b <= a
    ensures |a - b| == |a| - |b|
  {
  }

  lemma SubseqRefl(s: seq<int>)
    ensures Subseq(s, s)
    decreases |s|
  {
  }

  /** Deleting position `i` yields a subsequence. */
  lemma {:induction false} DropOneSubseq(s: seq<int>, i: int)
    requires 0 <= i < |s|
    ensures Subseq(s[..i] + s[i + 1..], s)
    decreases i
  {
    var a := s[..i] + s[i + 1..];
    if i == 0 {
      assert a == s[1..];
      SubseqRefl(s[1..]);
    } else {
      DropOneSubseq(s[1..], i - 1);
      assert a[0] == s[0];
      assert a[1..] == s[1..][..i - 1] + s[1..][i..];
    }
  }

  lemma {:induction false} SubseqTrans(a: seq<int>, b: seq<int>, c: seq<int>)
    requires Subseq(a, b) && Subseq(b, c)
    ensures Subseq(a, c)
    decreases |c|
  {
    if |a| > 0 {
      if Subseq(b, c[1..]) {
        SubseqTrans(a, b, c[1..]);
      } else if a[0] == b[0] && Subseq(a[1..], b[1..]) {
        SubseqTrans(a[1..], b[1..], c[1..]);
      } else {
        SubseqTrans(a, b[1..], c[1..]);
      }
    }
  }

  /** The first-occurrence removal keeps the order of the remaining values. */
  lemma RemoveFirstSubseq(s: seq<int>, x: int)
    ensures Subseq(RemoveFirst(s, x), s)
  {
    var i := IndexOf(s, x);
    if i > -1 {
      DropOneSubseq(s, i);
    } else {
      SubseqRefl(s);
    }
  }

  lemma {:induction false} RemoveEachSubseq(s: seq<int>, xs: seq<int>)
    ensures Subseq(RemoveEach(s, xs), s)
    decreases |xs|
  {
    if |xs| == 0 {
      SubseqRefl(s);
    } else {
      var s' := RemoveFirst(s, xs[0]);
      RemoveFirstSubseq(s, xs[0]);
      RemoveEachSubseq(s', xs[1..]);
      SubseqTrans(RemoveEach(s', xs[1..]), s', s);
    }
  }

  /** Every value of a subsequence occurs in the sequence it came from. */
  lemma {:induction false} SubseqMembers(a: seq<int>, b: seq<int>)
    requires Subseq(a, b)
    ensures forall x :: x in a ==> x in b
    decreases |b|
  {
    if |a| > 0 {
      if a[0] == b[0] && Subseq(a[1..], b[1..]) {
        SubseqMembers(a[1..], b[1..]);
        assert a == [a[0]] + a[1..];
      } else {
        SubseqMembers(a, b[1..]);
      }
      assert b == [b[0]] + b[1..];
    }
  }

  /** A subsequence of a strictly increasing sequence is strictly increasing. */
  lemma {:induction false} SubseqIncreasing(a: seq<int>, b: seq<int>)
    requires Subseq(a, b) && StrictlyIncreasing(b)
    ensures StrictlyIncreasing(a)
    decreases |b|
  {
    if |a| > 0 {
      if a[0] == b[0] && Subseq(a[1..], b[1..]) {
        SubseqIncreasing(a[1..], b[1..]);
        SubseqMembers(a[1..], b[1..]);
        forall j | 0 < j < |a|
          ensures a[0] < a[j]
        {
          assert a[j] == a[1..][j - 1];
          assert a[j] in b[1..];
        }
      } else {
        SubseqIncreasing(a, b[1..]);
      }
    }
  }

  /** In a sequence without repetitions a present value occurs exactly once. */
  lemma {:induction false} DistinctCount(s: seq<int>, x: int)
    requires Distinct(s)
    ensures multiset(s)[x] == if x in s then 1 else 0
    decreases |s|
  {
    if |s| > 0 {
      assert s == [s[0]] + s[1..];
      DistinctCount(s[1..], x);
      if s[0] == x {
        assert x !in s[1..];
      }
    }
  }

  /** The values of a strictly increasing sequence are at most its last. */
  lemma IncreasingBelowLast(s: seq<int>, x: int)
    requires StrictlyIncreasing(s) && x in s
    ensures x <= s[|s| - 1]
  {
  }

  /** Joining two strictly increasing sequences whose parts are ordered. */
  lemma ConcatIncreasing(a: seq<int>, b: seq<int>)
    requires StrictlyIncreasing(a) && StrictlyIncreasing(b)
    requires forall i, j :: 0 <= i < |a| && 0 <= j < |b| ==> a[i] < b[j]
    ensures StrictlyIncreasing(a + b)
  {
  }
}
