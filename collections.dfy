/** Sequence helpers: joining pieces, and duplicate-free sequences (lodash `uniq`) with the facts about permutations of them. */
module Collections {

  /** The pieces joined end to end. */
  function Concat<T>(ss: seq<seq<T>>): seq<T> {
    if ss == [] then [] else ss[0] + Concat(ss[1..])
  }

  predicate Distinct<T(==)>(s: seq<T>) {
    forall i, j :: 0 <= i < j < |s| ==> s[i] != s[j]
  }

  /** lodash `uniq`: the distinct values in first-seen order. */
  function Uniq<T(==,!new)>(xs: seq<T>): (r: seq<T>)
    ensures forall v :: v in r <==> v in xs
    ensures Distinct(r)
    ensures xs != [] ==> r != [] && r[0] == xs[0]
  {
    if xs == [] then []
    else
      var u := Uniq(xs[..|xs| - 1]);
      var last := xs[|xs| - 1];
      assert forall v :: v in xs <==> v in xs[..|xs| - 1] || v == last;
      if last in u then u else u + [last]
  }

  /** The position of the first occurrence of `v` in `xs`. */
  function FirstIndex<T(==)>(xs: seq<T>, v: T): (k: nat)
    requires v in xs
    ensures k < |xs| && xs[k] == v && v !in xs[..k]
  {
    if xs[0] == v then 0
    else
      var k := FirstIndex(xs[1..], v);
      assert xs[..k + 1] == [xs[0]] + xs[1..][..k];
      k + 1
  }

  /** An occurrence with no earlier one is the first occurrence. */
  lemma FirstIndexAt<T>(xs: seq<T>, k: nat)
    requires k < |xs| && xs[k] !in xs[..k]
    ensures FirstIndex(xs, xs[k]) == k
  {
  }

  /** The values of `Uniq(xs)` come in the order of their first occurrences in `xs`: with
      membership and distinctness this pins the result down completely. */
  lemma {:induction false} UniqFirstSeenOrder<T(!new)>(xs: seq<T>)
    ensures forall i, j :: 0 <= i < j < |Uniq(xs)| ==> FirstIndex(xs, Uniq(xs)[i]) < FirstIndex(xs, Uniq(xs)[j])
    decreases |xs|
  {
    if xs != [] {
      var pre := xs[..|xs| - 1];
      var last := xs[|xs| - 1];
      var u := Uniq(pre);
      UniqFirstSeenOrder(pre);
      forall v | v in pre ensures FirstIndex(xs, v) == FirstIndex(pre, v) {
        var k := FirstIndex(pre, v);
        assert xs[..k] == pre[..k];
        FirstIndexAt(xs, k);
      }
      if last !in pre {
        assert xs[..|pre|] == pre;
        FirstIndexAt(xs, |pre|);
        assert Uniq(xs) == u + [last];
        forall i, j | 0 <= i < j < |Uniq(xs)|
          ensures FirstIndex(xs, Uniq(xs)[i]) < FirstIndex(xs, Uniq(xs)[j])
        {
          assert Uniq(xs)[i] == u[i] && u[i] in pre;
          if j < |u| {
            assert Uniq(xs)[j] == u[j] && u[j] in pre;
          }
        }
      } else {
        assert Uniq(xs) == u;
        forall i, j | 0 <= i < j < |u| ensures FirstIndex(xs, u[i]) < FirstIndex(xs, u[j]) {
          assert u[i] in pre && u[j] in pre;
        }
      }
    }
  }

  /** `r` is `s` with some elements left out, the rest in their order. */
  predicate Subsequence<T(==)>(r: seq<T>, s: seq<T>) {
    if r == [] then true
    else if s == [] then false
    else (r[0] == s[0] && Subsequence(r[1..], s[1..])) || Subsequence(r, s[1..])
  }

  /** A subsequence stays one when an element is appended to the whole, with or without it. */
  lemma {:induction false} SubsequenceSnoc<T>(r: seq<T>, s: seq<T>, x: T)
    requires Subsequence(r, s)
    ensures Subsequence(r + [x], s + [x]) && Subsequence(r, s + [x])
    decreases |s|
  {
    if r == [] {
      if s != [] {
        SubsequenceSnoc(r, s[1..], x);
        assert (s + [x])[1..] == s[1..] + [x];
      }
      assert (r + [x])[1..] == [];
    } else {
      assert (s + [x])[1..] == s[1..] + [x];
      assert (r + [x])[1..] == r[1..] + [x];
      if r[0] == s[0] && Subsequence(r[1..], s[1..]) {
        SubsequenceSnoc(r[1..], s[1..], x);
      } else {
        SubsequenceSnoc(r, s[1..], x);
      }
    }
  }

  lemma {:induction false} DistinctCount<T>(s: seq<T>, v: T)
    requires Distinct(s)
    ensures multiset(s)[v] <= 1
    decreases |s|
  {
    if s != [] {
      var pre := s[..|s| - 1];
      var last := s[|s| - 1];
      assert s == pre + [last];
      assert Distinct(pre);
      DistinctCount(pre, v);
      forall k | 0 <= k < |pre| ensures pre[k] != last {
        assert s[k] == pre[k];
      }
      assert last !in pre;
    }
  }

  lemma DistinctFromCounts<T>(s: seq<T>)
    requires forall v :: multiset(s)[v] <= 1
    ensures Distinct(s)
  {
    forall i, j | 0 <= i < j < |s| ensures s[i] != s[j] {
      var v := s[i];
      assert s == s[..j] + [s[j]] + s[j + 1..];
      assert s[..j][i] == v;
      assert multiset(s)[v] == multiset(s[..j])[v] + multiset([s[j]])[v] + multiset(s[j + 1..])[v];
    }
  }

  /** A permutation of a duplicate-free sequence is duplicate-free. */
  lemma PermutationDistinct<T>(s: seq<T>, t: seq<T>)
    requires Distinct(s) && multiset(s) == multiset(t)
    ensures Distinct(t)
  {
    forall v ensures multiset(t)[v] <= 1 { DistinctCount(s, v); }
    DistinctFromCounts(t);
  }

}
