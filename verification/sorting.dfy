/**
 * The sort used for the top-level list and for sub-task ranges. The source
 * calls qsort with a comparator returning a negative, zero or positive int;
 * the model sorts by insertion. What is claimed of the result is what qsort
 * promises: it is a permutation of the input, sorted when the comparator is
 * a total preorder on the elements; and, when the comparator also leaves no
 * two distinct elements level, it is the only such arrangement.
 */
module Sorting {

  /** Every earlier element compares at most equal to every later one. */
  ghost predicate Sorted<T>(cmp: (T, T) -> int, s: seq<T>)
  {
    forall i, j :: 0 <= i < j < |s| ==> cmp(s[i], s[j]) <= 0
  }

  /** The comparator is total and transitive on the set of values S. */
  ghost predicate ValidOnSet<T>(cmp: (T, T) -> int, S: set<T>)
  {
    && (forall a, b :: a in S && b in S ==> cmp(a, b) <= 0 || cmp(b, a) <= 0)
    && (forall a, b, c :: a in S && b in S && c in S && cmp(a, b) <= 0 && cmp(b, c) <= 0 ==> cmp(a, c) <= 0)
  }

  ghost function Elements<T>(s: seq<T>): set<T>
  {
    set x | x in s
  }

  /** The comparator is total and transitive on the elements of s. */
  ghost predicate ValidOn<T>(cmp: (T, T) -> int, s: seq<T>)
  {
    ValidOnSet(cmp, Elements(s))
  }

  /** x placed before the first element it does not exceed. */
  function Insert<T(==)>(cmp: (T, T) -> int, x: T, s: seq<T>): (r: seq<T>)
    ensures |r| == |s| + 1
  {
    if s == [] then [x]
    else if cmp(x, s[0]) <= 0 then [x] + s
    else [s[0]] + Insert(cmp, x, s[1..])
  }

  /** Inserting adds x and keeps everything else. */
  lemma {:induction false} InsertPermutes<T>(cmp: (T, T) -> int, x: T, s: seq<T>)
    ensures multiset(Insert(cmp, x, s)) == multiset(s) + multiset{x}
  {
    if s != [] && !(cmp(x, s[0]) <= 0) {
      InsertPermutes(cmp, x, s[1..]);
      assert s == [s[0]] + s[1..];
    }
  }

  lemma {:induction false} InsertSorted<T>(cmp: (T, T) -> int, x: T, s: seq<T>, S: set<T>)
    requires ValidOnSet(cmp, S)
    requires x in S && forall i :: 0 <= i < |s| ==> s[i] in S
    requires Sorted(cmp, s)
    ensures Sorted(cmp, Insert(cmp, x, s))
    decreases |s|
  {
    if s == [] {
    } else if cmp(x, s[0]) <= 0 {
      PrependSmallest(cmp, x, s, S);
    } else {
      var rest := s[1..];
      InsertSorted(cmp, x, rest, S);
      var ins := Insert(cmp, x, rest);
      forall k | 0 <= k < |ins| ensures cmp(s[0], ins[k]) <= 0 {
        HeadBelowInserted(cmp, x, s, ins[k]);
      }
      PrependBelowAll(cmp, s[0], ins);
    }
  }

  /** x placed before a sorted s whose head it does not exceed. */
  lemma PrependSmallest<T>(cmp: (T, T) -> int, x: T, s: seq<T>, S: set<T>)
    requires ValidOnSet(cmp, S)
    requires x in S && forall i :: 0 <= i < |s| ==> s[i] in S
    requires s != [] && cmp(x, s[0]) <= 0 && Sorted(cmp, s)
    ensures Sorted(cmp, [x] + s)
  {
    forall j | 0 <= j < |s| ensures cmp(x, s[j]) <= 0 {
      if j > 0 {
        assert cmp(s[0], s[j]) <= 0;
        assert s[0] in S && s[j] in S;
      }
    }
    PrependBelowAll(cmp, x, s);
  }

  lemma PrependBelowAll<T>(cmp: (T, T) -> int, x: T, s: seq<T>)
    requires Sorted(cmp, s)
    requires forall k :: 0 <= k < |s| ==> cmp(x, s[k]) <= 0
    ensures Sorted(cmp, [x] + s)
  {
    var r := [x] + s;
    forall i, j | 0 <= i < j < |r| ensures cmp(r[i], r[j]) <= 0 {
      assert r[j] == s[j - 1];
      if i > 0 {
        assert r[i] == s[i - 1];
      }
    }
  }

  /** When x goes past the head, the head does not exceed anything inserted after it. */
  lemma HeadBelowInserted<T>(cmp: (T, T) -> int, x: T, s: seq<T>, y: T)
    requires s != [] && !(cmp(x, s[0]) <= 0)
    requires cmp(s[0], x) <= 0
    requires Sorted(cmp, s)
    requires y in multiset(Insert(cmp, x, s[1..]))
    ensures cmp(s[0], y) <= 0
  {
    InsertPermutes(cmp, x, s[1..]);
    if y != x {
      assert y in multiset(s[1..]);
      var m :| 0 <= m < |s[1..]| && s[1..][m] == y;
      assert s[m + 1] == y;
    }
  }

  /**
   * qsort, modelled by insertion: the same number of elements; SortPermutes
   * and SortSorted say which ones and in what order.
   */
  function Sort<T(==)>(cmp: (T, T) -> int, s: seq<T>): (r: seq<T>)
    ensures |r| == |s|
  {
    if s == [] then []
    else
      Insert(cmp, s[0], Sort(cmp, s[1..]))
  }

  /** The result is a permutation of the input. */
  lemma {:induction false} SortPermutes<T>(cmp: (T, T) -> int, s: seq<T>)
    ensures multiset(Sort(cmp, s)) == multiset(s)
  {
    if s != [] {
      SortPermutes(cmp, s[1..]);
      InsertPermutes(cmp, s[0], Sort(cmp, s[1..]));
      assert s == [s[0]] + s[1..];
    }
  }

  /** With a comparator that is total and transitive on the input, the result is sorted. */
  lemma {:induction false} SortSorted<T>(cmp: (T, T) -> int, s: seq<T>)
    requires ValidOn(cmp, s)
    ensures Sorted(cmp, Sort(cmp, s))
  {
    if s != [] {
      assert Elements(s[1..]) <= Elements(s);
      SortSorted(cmp, s[1..]);
      SortPermutes(cmp, s[1..]);
      var rest := Sort(cmp, s[1..]);
      forall i | 0 <= i < |rest| ensures rest[i] in Elements(s) {
        assert rest[i] in multiset(s[1..]);
      }
      InsertSorted(cmp, s[0], rest, Elements(s));
    }
  }

  /** The comparator leaves no two distinct values of S level with each other. */
  ghost predicate Decisive<T>(cmp: (T, T) -> int, S: set<T>)
  {
    forall a, b :: a in S && b in S && cmp(a, b) <= 0 && cmp(b, a) <= 0 ==> a == b
  }

  /** Two sorted arrangements of the same elements under a decisive comparator are one arrangement. */
  lemma {:induction false} SortedArrangementsAgree<T>(cmp: (T, T) -> int, t: seq<T>, u: seq<T>, S: set<T>)
    requires Decisive(cmp, S) && forall i :: 0 <= i < |t| ==> t[i] in S
    requires Sorted(cmp, t) && Sorted(cmp, u) && multiset(t) == multiset(u)
    ensures t == u
    decreases |t|
  {
    assert |t| == |multiset(t)| == |u|;
    if t != [] {
      SortedHeadsAgree(cmp, t, u, S);
      SameTails(t, u);
      SortedTail(cmp, t);
      SortedTail(cmp, u);
      forall i | 0 <= i < |t[1..]| ensures t[1..][i] in S {
        assert t[1..][i] == t[i + 1];
      }
      SortedArrangementsAgree(cmp, t[1..], u[1..], S);
      assert t == [t[0]] + t[1..] && u == [u[0]] + u[1..];
    }
  }

  /** The first element of each is in the other and does not exceed anything there, so they are level and equal. */
  lemma SortedHeadsAgree<T>(cmp: (T, T) -> int, t: seq<T>, u: seq<T>, S: set<T>)
    requires Decisive(cmp, S) && forall i :: 0 <= i < |t| ==> t[i] in S
    requires t != [] && Sorted(cmp, t) && Sorted(cmp, u) && multiset(t) == multiset(u)
    ensures u != [] && t[0] == u[0]
  {
    assert t[0] in multiset(u);
    assert u[0] in multiset(t);
    var i :| 0 <= i < |t| && t[i] == u[0];
    var j :| 0 <= j < |u| && u[j] == t[0];
    assert i == 0 || cmp(t[0], t[i]) <= 0;
    assert j == 0 || cmp(u[0], u[j]) <= 0;
    assert t[0] in S && t[i] in S;
  }

  /** Equal heads and equal multisets leave equal multisets of the tails. */
  lemma SameTails<T>(t: seq<T>, u: seq<T>)
    requires t != [] && u != [] && t[0] == u[0] && multiset(t) == multiset(u)
    ensures multiset(t[1..]) == multiset(u[1..])
  {
    assert t == [t[0]] + t[1..] && u == [u[0]] + u[1..];
    assert multiset(t[1..]) == multiset(t) - multiset{t[0]};
    assert multiset(u[1..]) == multiset(u) - multiset{u[0]};
  }

  lemma SortedTail<T>(cmp: (T, T) -> int, s: seq<T>)
    requires s != [] && Sorted(cmp, s)
    ensures Sorted(cmp, s[1..])
  {
    forall i, j | 0 <= i < j < |s[1..]| ensures cmp(s[1..][i], s[1..][j]) <= 0 {
      assert s[1..][i] == s[i + 1] && s[1..][j] == s[j + 1];
    }
  }

  /**
   * qsort promises only a sorted permutation. Under a comparator that is a
   * total preorder on the input and leaves no two distinct elements level,
   * there is one such arrangement, so whatever qsort returns is Sort's result.
   */
  lemma SortedPermutationIsSort<T>(cmp: (T, T) -> int, s: seq<T>, t: seq<T>)
    requires ValidOn(cmp, s) && Decisive(cmp, Elements(s))
    requires Sorted(cmp, t) && multiset(t) == multiset(s)
    ensures t == Sort(cmp, s)
  {
    SortSorted(cmp, s);
    SortPermutes(cmp, s);
    forall i | 0 <= i < |t| ensures t[i] in Elements(s) {
      assert t[i] in multiset(s);
    }
    SortedArrangementsAgree(cmp, t, Sort(cmp, s), Elements(s));
  }

  /** Sorting again with a valid, decisive comparator changes nothing. */
  lemma SortIsIdempotent<T>(cmp: (T, T) -> int, s: seq<T>)
    requires ValidOn(cmp, s) && Decisive(cmp, Elements(s))
    ensures Sort(cmp, Sort(cmp, s)) == Sort(cmp, s)
  {
    SortSorted(cmp, s);
    SortPermutes(cmp, s);
    var r := Sort(cmp, s);
    assert Elements(r) == Elements(s) by {
      forall x ensures x in r <==> x in s {
        assert x in r <==> x in multiset(r);
      }
    }
    SortPermutes(cmp, r);
    SortedPermutationIsSort(cmp, r, r);
  }
}
