/**
 * Values of the numpy/torch arrays the core passes around, as sequences: a batch
 * matrix is a sequence of rows; sums and concatenations are the reductions the
 * source applies to them.
 */
module Tensors {

  /** m has the shape rows x cols. */
  predicate IsMatrix<T>(m: seq<seq<T>>, rows: nat, cols: nat)
  {
    |m| == rows && forall r :: 0 <= r < rows ==> |m[r]| == cols
  }

  /** The sum of f over s, accumulated from the left. */
  function Total<T>(s: seq<T>, f: T -> real): real
  {
    if |s| == 0 then 0.0 else Total(s[..|s| - 1], f) + f(s[|s| - 1])
  }

  function Id(x: real): real { x }

  /** `.sum()` of a float vector. */
  function Sum(s: seq<real>): real
  {
    Total(s, Id)
  }

  /** `.sum()` of an integer vector. */
  function IntSum(s: seq<int>): int
  {
    if |s| == 0 then 0 else IntSum(s[..|s| - 1]) + s[|s| - 1]
  }

  /** `np.concatenate` of a list of one-dimensional arrays. */
  function Concat<T>(ss: seq<seq<T>>): seq<T>
  {
    if |ss| == 0 then [] else Concat(ss[..|ss| - 1]) + ss[|ss| - 1]
  }

  lemma {:induction false} TotalConcat<T>(a: seq<T>, b: seq<T>, f: T -> real)
    ensures Total(a + b, f) == Total(a, f) + Total(b, f)
    decreases |b|
  {
    if |b| == 0 {
      assert a + b == a;
    } else {
      assert (a + b)[..|a + b| - 1] == a + b[..|b| - 1];
      TotalConcat(a, b[..|b| - 1], f);
    }
  }

  /** Taking element k out of t leaves the rest of t, around it, with one copy fewer. */
  lemma RemoveAt<T>(t: seq<T>, k: nat)
    requires k < |t|
    ensures t == t[..k] + [t[k]] + t[k + 1..]
    ensures multiset(t[..k] + t[k + 1..]) == multiset(t) - multiset{t[k]}
  {
    assert t == t[..k] + [t[k]] + t[k + 1..];
    calc {
      multiset(t);
      multiset(t[..k] + [t[k]] + t[k + 1..]);
      multiset(t[..k]) + multiset{t[k]} + multiset(t[k + 1..]);
    }
  }

  /** The last element of a nonempty sequence occurs in any permutation of it. */
  lemma LastOccurs<T>(s: seq<T>, t: seq<T>) returns (k: nat)
    requires |s| > 0 && multiset(s) == multiset(t)
    ensures k < |t| && t[k] == s[|s| - 1]
    ensures s == s[..|s| - 1] + [s[|s| - 1]]
    ensures multiset(s[..|s| - 1]) == multiset(s) - multiset{s[|s| - 1]}
  {
    var x := s[|s| - 1];
    assert s == s[..|s| - 1] + [x];
    assert x in multiset(s);
    k :| 0 <= k < |t| && t[k] == x;
  }

  /** A sum depends only on the multiset of its terms. */
  lemma {:induction false} TotalPermutation<T>(s: seq<T>, t: seq<T>, f: T -> real)
    requires multiset(s) == multiset(t)
    ensures Total(s, f) == Total(t, f)
    decreases |s|
  {
    if |s| == 0 {
      assert |t| == |multiset(t)| == 0;
    } else {
      var x, init := s[|s| - 1], s[..|s| - 1];
      var k := LastOccurs(s, t);
      RemoveAt(t, k);
      var a, b := t[..k], t[k + 1..];
      TotalPermutation(init, a + b, f);
      TotalConcat(a + [x], b, f);
      TotalConcat(a, [x], f);
      TotalConcat(a, b, f);
      assert Total([x], f) == f(x) by {
        assert [x][..0] == [];
      }
    }
  }

  lemma {:induction false} ConcatAppend<T>(a: seq<seq<T>>, b: seq<seq<T>>)
    ensures Concat(a + b) == Concat(a) + Concat(b)
    decreases |b|
  {
    if |b| == 0 {
      assert a + b == a;
    } else {
      var init, last := b[..|b| - 1], b[|b| - 1];
      assert (a + b)[..|a + b| - 1] == a + init;
      assert (a + b)[|a + b| - 1] == last;
      ConcatAppend(a, init);
      calc {
        Concat(a + b);
        Concat(a + init) + last;
        Concat(a) + Concat(init) + last;
        Concat(a) + (Concat(init) + last);
      }
    }
  }

  /** Concatenating the same pieces in any order gives the same multiset of elements. */
  lemma {:induction false} ConcatPermutation<T>(ss: seq<seq<T>>, tt: seq<seq<T>>)
    requires multiset(ss) == multiset(tt)
    ensures multiset(Concat(ss)) == multiset(Concat(tt))
    decreases |ss|
  {
    if |ss| == 0 {
      assert |tt| == |multiset(tt)| == 0;
    } else {
      var x, init := ss[|ss| - 1], ss[..|ss| - 1];
      var k := LastOccurs(ss, tt);
      RemoveAt(tt, k);
      var a, b := tt[..k], tt[k + 1..];
      ConcatPermutation(init, a + b);
      ConcatAround(a, x, b);
      assert multiset(Concat(ss)) == multiset(Concat(init)) + multiset(x);
    }
  }

  /** Concatenating a + [x] + b holds x's elements on top of those of a + b. */
  lemma ConcatAround<T>(a: seq<seq<T>>, x: seq<T>, b: seq<seq<T>>)
    ensures multiset(Concat(a + [x] + b)) == multiset(Concat(a + b)) + multiset(x)
  {
    ConcatAppend(a + [x], b);
    ConcatAppend(a, [x]);
    ConcatAppend(a, b);
    assert Concat([x]) == x by {
      assert [x][..0] == [];
    }
  }

  /** f applied to each element: a list comprehension over s. */
  function Map<A, B>(s: seq<A>, f: A -> B): (r: seq<B>)
    ensures |r| == |s| && forall i :: 0 <= i < |s| ==> r[i] == f(s[i])
  {
    seq(|s|, i requires 0 <= i < |s| => f(s[i]))
  }

  lemma MapAppend<A, B>(a: seq<A>, b: seq<A>, f: A -> B)
    ensures Map(a + b, f) == Map(a, f) + Map(b, f)
  {
  }

  /** Mapping permuted elements gives permuted results. */
  lemma {:induction false} MapPermutation<A, B>(s: seq<A>, t: seq<A>, f: A -> B)
    requires multiset(s) == multiset(t)
    ensures multiset(Map(s, f)) == multiset(Map(t, f))
    decreases |s|
  {
    if |s| == 0 {
      assert |t| == |multiset(t)| == 0;
    } else {
      var x, init := s[|s| - 1], s[..|s| - 1];
      var k := LastOccurs(s, t);
      RemoveAt(t, k);
      var a, b := t[..k], t[k + 1..];
      MapPermutation(init, a + b, f);
      MapAround(a, x, b, f);
      MapSnoc(init, x, f);
    }
  }

  /** Mapping init + [x] adds f(x) to the results for init. */
  lemma MapSnoc<A, B>(init: seq<A>, x: A, f: A -> B)
    ensures multiset(Map(init + [x], f)) == multiset(Map(init, f)) + multiset{f(x)}
  {
    MapAppend(init, [x], f);
    assert Map([x], f) == [f(x)];
  }

  /** Mapping a + [x] + b gives f(x) on top of the results for a + b. */
  lemma MapAround<A, B>(a: seq<A>, x: A, b: seq<A>, f: A -> B)
    ensures multiset(Map(a + [x] + b, f)) == multiset(Map(a + b, f)) + multiset{f(x)}
  {
    MapAppend(a + [x], b, f);
    MapAppend(a, [x], f);
    MapAppend(a, b, f);
  }

  /** Element k of piece j sits after the pieces before it in the concatenation. */
  lemma {:induction false} ConcatIndex<T>(ss: seq<seq<T>>, j: nat, k: nat)
    requires j < |ss| && k < |ss[j]|
    ensures |Concat(ss[..j])| + k < |Concat(ss)|
    ensures Concat(ss)[|Concat(ss[..j])| + k] == ss[j][k]
    decreases |ss|
  {
    var init := ss[..|ss| - 1];
    if j == |ss| - 1 {
      assert ss[..j] == init;
    } else {
      assert init[..j] == ss[..j];
      ConcatIndex(init, j, k);
    }
  }

  /** The length of a concatenation is the sum of the piece lengths. */
  function Lengths<T>(ss: seq<seq<T>>): (r: seq<int>)
    ensures |r| == |ss| && forall i :: 0 <= i < |ss| ==> r[i] == |ss[i]|
  {
    if |ss| == 0 then [] else Lengths(ss[..|ss| - 1]) + [|ss[|ss| - 1]|]
  }

  lemma {:induction false} ConcatLength<T>(ss: seq<seq<T>>)
    ensures |Concat(ss)| == IntSum(Lengths(ss))
    decreases |ss|
  {
    if |ss| > 0 {
      ConcatLength(ss[..|ss| - 1]);
      assert Lengths(ss)[..|ss| - 1] == Lengths(ss[..|ss| - 1]);
    }
  }
}
