/** Array.prototype.sort with a comparator, modelled as a stable insertion sort:
    the sorted prefix grows one element at a time and each new element moves left
    past the elements the comparator puts strictly after it. */
module StableSort {

  /** Inserts `x` at the end of `s`, then moves it left past every element `e` with cmp(e, x) > 0. */
  function Insert<T>(cmp: (T, T) -> int, x: T, s: seq<T>): (r: seq<T>)
    ensures multiset(r) == multiset(s) + multiset{x}
  {
    if s == [] then [x]
    else if cmp(s[|s| - 1], x) > 0 then
      assert s == s[..|s| - 1] + [s[|s| - 1]];
      Insert(cmp, x, s[..|s| - 1]) + [s[|s| - 1]]
    else s + [x]
  }

  /** The comparator-driven sort; the result is always a permutation of the input,
      whatever the comparator returns. */
  function Sort<T>(cmp: (T, T) -> int, s: seq<T>): (r: seq<T>)
    ensures multiset(r) == multiset(s)
  {
    if s == [] then []
    else
      assert s == s[..|s| - 1] + [s[|s| - 1]];
      Insert(cmp, s[|s| - 1], Sort(cmp, s[..|s| - 1]))
  }

  /** `cmp` orders the values of `dom` consistently: any two are comparable
      and "not after" is transitive. */
  ghost predicate TotalPreorderOn<T>(cmp: (T, T) -> int, dom: set<T>) {
    && (forall a, b :: a in dom && b in dom ==> cmp(a, b) <= 0 || cmp(b, a) <= 0)
    && (forall a, b, c :: a in dom && b in dom && c in dom && cmp(a, b) <= 0 && cmp(b, c) <= 0 ==> cmp(a, c) <= 0)
  }

  ghost predicate SortedBy<T>(cmp: (T, T) -> int, s: seq<T>) {
    forall i, j :: 0 <= i < j < |s| ==> cmp(s[i], s[j]) <= 0
  }

  /** Appending an element that no element of a sorted sequence comes after keeps it sorted. */
  lemma AppendSorted<T>(cmp: (T, T) -> int, s: seq<T>, y: T)
    requires SortedBy(cmp, s)
    requires forall i :: 0 <= i < |s| ==> cmp(s[i], y) <= 0
    ensures SortedBy(cmp, s + [y])
  {
    var r := s + [y];
    forall i, j | 0 <= i < j < |r| ensures cmp(r[i], r[j]) <= 0 {
      if j < |s| {
        assert r[i] == s[i] && r[j] == s[j];
      }
    }
  }

  lemma {:induction false} InsertSorted<T>(cmp: (T, T) -> int, x: T, s: seq<T>, dom: set<T>)
    requires TotalPreorderOn(cmp, dom)
    requires x in dom && forall e :: e in s ==> e in dom
    requires SortedBy(cmp, s)
    ensures SortedBy(cmp, Insert(cmp, x, s))
    decreases |s|
  {
    if s != [] {
      var last := s[|s| - 1];
      var pre := s[..|s| - 1];
      if cmp(last, x) > 0 {
        assert SortedBy(cmp, pre);
        InsertSorted(cmp, x, pre, dom);
        var ins := Insert(cmp, x, pre);
        assert cmp(x, last) <= 0;
        forall i | 0 <= i < |ins| ensures cmp(ins[i], last) <= 0 {
          var e := ins[i];
          assert e in multiset(ins);
          if e != x {
            assert e in multiset(pre);
            var k :| 0 <= k < |pre| && pre[k] == e;
            assert s[k] == e;
          }
        }
        AppendSorted(cmp, ins, last);
      } else {
        assert cmp(last, x) <= 0;
        forall i | 0 <= i < |s| ensures cmp(s[i], x) <= 0 {
          if i < |s| - 1 {
            assert cmp(s[i], last) <= 0;
            assert s[i] in dom && last in dom;
          }
        }
        AppendSorted(cmp, s, x);
      }
    }
  }

  /** When the comparator is a total preorder on the elements, the result is sorted. */
  lemma {:induction false} SortSorted<T>(cmp: (T, T) -> int, s: seq<T>, dom: set<T>)
    requires TotalPreorderOn(cmp, dom)
    requires forall e :: e in s ==> e in dom
    ensures SortedBy(cmp, Sort(cmp, s))
    decreases |s|
  {
    if s != [] {
      var pre := s[..|s| - 1];
      SortSorted(cmp, pre, dom);
      forall e | e in Sort(cmp, pre) ensures e in dom {
        assert e in multiset(Sort(cmp, pre));
        assert e in multiset(pre);
      }
      InsertSorted(cmp, s[|s| - 1], Sort(cmp, pre), dom);
    }
  }

  /** An input the comparator already accepts as ordered is returned unchanged:
      in particular elements that all compare as 0 keep their original order. */
  lemma {:induction false} SortKeepsOrdered<T>(cmp: (T, T) -> int, s: seq<T>)
    requires forall i, j :: 0 <= i < j < |s| ==> cmp(s[i], s[j]) <= 0
    ensures Sort(cmp, s) == s
    decreases |s|
  {
    if s != [] {
      OrderedPrefix(cmp, s);
      SortKeepsOrdered(cmp, s[..|s| - 1]);
      SortLast(cmp, s);
      InsertLast(cmp, s);
    }
  }

  /** `cmp` ties a and b: it returns 0 both ways. */
  predicate Tied<T>(cmp: (T, T) -> int, a: T, b: T) {
    cmp(a, b) == 0 && cmp(b, a) == 0
  }

  /** The elements of `s` that `cmp` ties with `k`, in their order in `s`. */
  function TiedWith<T>(cmp: (T, T) -> int, k: T, s: seq<T>): seq<T> {
    if s == [] then []
    else TiedWith(cmp, k, s[..|s| - 1]) + (if Tied(cmp, s[|s| - 1], k) then [s[|s| - 1]] else [])
  }

  /** Insertion moves `x` only past elements put strictly after it, so never past one that is
      tied with it. */
  lemma {:induction false} InsertStable<T>(cmp: (T, T) -> int, x: T, s: seq<T>, k: T, dom: set<T>)
    requires TotalPreorderOn(cmp, dom)
    requires x in dom && k in dom && forall e :: e in s ==> e in dom
    ensures TiedWith(cmp, k, Insert(cmp, x, s)) == TiedWith(cmp, k, s) + (if Tied(cmp, x, k) then [x] else [])
    decreases |s|
  {
    if s == [] {
      assert [x][..0] == [];
    } else {
      var pre := s[..|s| - 1];
      var last := s[|s| - 1];
      if cmp(last, x) > 0 {
        InsertStable(cmp, x, pre, k, dom);
        var ins := Insert(cmp, x, pre);
        assert (ins + [last])[..|ins|] == ins;
        assert last in s;
        assert !(Tied(cmp, last, k) && Tied(cmp, x, k));
      } else {
        assert (s + [x])[..|s|] == s;
      }
    }
  }

  /** Stability: the elements tied with any k come out in their input order. */
  lemma {:induction false} SortStable<T>(cmp: (T, T) -> int, s: seq<T>, k: T, dom: set<T>)
    requires TotalPreorderOn(cmp, dom)
    requires k in dom && forall e :: e in s ==> e in dom
    ensures TiedWith(cmp, k, Sort(cmp, s)) == TiedWith(cmp, k, s)
    decreases |s|
  {
    if s != [] {
      var pre := s[..|s| - 1];
      SortStable(cmp, pre, k, dom);
      forall e | e in Sort(cmp, pre) ensures e in dom {
        assert e in multiset(Sort(cmp, pre));
        assert e in multiset(pre);
      }
      InsertStable(cmp, s[|s| - 1], Sort(cmp, pre), k, dom);
    }
  }

  /** Dropping the last element keeps an ordered input ordered. */
  lemma {:induction false} OrderedPrefix<T>(cmp: (T, T) -> int, s: seq<T>)
    requires s != [] && forall i, j :: 0 <= i < j < |s| ==> cmp(s[i], s[j]) <= 0
    ensures var pre := s[..|s| - 1];
      forall i, j :: 0 <= i < j < |pre| ==> cmp(pre[i], pre[j]) <= 0
    ensures |s| > 1 ==> cmp(s[|s| - 2], s[|s| - 1]) <= 0
  {
  }

  /** The last element is inserted into the sorted rest. */
  lemma {:induction false} SortLast<T>(cmp: (T, T) -> int, s: seq<T>)
    requires s != []
    ensures Sort(cmp, s) == Insert(cmp, s[|s| - 1], Sort(cmp, s[..|s| - 1]))
  {
  }

  /** A last element nothing comes after stays where it is. */
  lemma {:induction false} InsertLast<T>(cmp: (T, T) -> int, s: seq<T>)
    requires s != [] && (|s| > 1 ==> cmp(s[|s| - 2], s[|s| - 1]) <= 0)
    ensures Insert(cmp, s[|s| - 1], s[..|s| - 1]) == s
  {
    assert s[..|s| - 1] + [s[|s| - 1]] == s;
  }
}
