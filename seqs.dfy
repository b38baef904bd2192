/**
 * Sequence operations that the task list relies on: the list comprehension
 * `[x for x in s if keep(x)]` and Python's stable `list.sort(key=...)`.
 */
module Seqs {

  /** `[x for x in s if keep(x)]`: the elements of `s` that satisfy `keep`, in their original order. */
  function Filter<T(!new)>(s: seq<T>, keep: T -> bool): (r: seq<T>)
    ensures |r| <= |s|
    ensures forall i :: 0 <= i < |r| ==> keep(r[i])
    ensures forall x :: x in r <==> x in s && keep(x)
    ensures forall x :: multiset(r)[x] == if keep(x) then multiset(s)[x] else 0
  {
    if s == [] then []
    else
      assert s == [s[0]] + s[1..];
      (if keep(s[0]) then [s[0]] else []) + Filter(s[1..], keep)
  }

  /** Filtering distributes over concatenation, so it never reorders what it keeps. */
  lemma {:induction false} FilterAppend<T(!new)>(a: seq<T>, b: seq<T>, keep: T -> bool)
    ensures Filter(a + b, keep) == Filter(a, keep) + Filter(b, keep)
  {
    if a == [] {
      assert a + b == b;
    } else {
      var head := if keep(a[0]) then [a[0]] else [];
      ConsAppend(a, b);
      FilterCons(a + b, keep);
      FilterAppend(a[1..], b, keep);
      FilterCons(a, keep);
      AppendAssoc(head, Filter(a[1..], keep), Filter(b, keep));
    }
  }

  /** One unfolding of `Filter` on a non-empty sequence. */
  lemma FilterCons<T(!new)>(s: seq<T>, keep: T -> bool)
    requires s != []
    ensures Filter(s, keep) == (if keep(s[0]) then [s[0]] else []) + Filter(s[1..], keep)
  {
  }

  lemma AppendAssoc<T>(a: seq<T>, b: seq<T>, c: seq<T>)
    ensures a + (b + c) == a + b + c
  {
  }

  /** The head and tail of a concatenation whose first part is not empty. */
  lemma ConsAppend<T>(a: seq<T>, b: seq<T>)
    requires a != []
    ensures (a + b)[0] == a[0] && (a + b)[1..] == a[1..] + b
  {
  }

  /** A one-element filter keeps its element exactly when it satisfies the predicate. */
  lemma FilterSingleton<T(!new)>(x: T, keep: T -> bool)
    ensures Filter([x], keep) == if keep(x) then [x] else []
  {
    assert [x][1..] == [];
  }

  /** A filter that keeps every element returns the sequence unchanged. */
  lemma {:induction false} FilterKeepsAll<T(!new)>(s: seq<T>, keep: T -> bool)
    requires forall i :: 0 <= i < |s| ==> keep(s[i])
    ensures Filter(s, keep) == s
  {
    if s != [] {
      FilterKeepsAll(s[1..], keep);
    }
  }

  /** A filter keeps as many elements as there are positions whose element passes the test. */
  lemma {:induction false} FilterCountsIndices<T(!new)>(s: seq<T>, keep: T -> bool, n: nat)
    requires n <= |s|
    ensures |Filter(s[..n], keep)| == |IndicesWhere(s, keep, n)|
  {
    if n == 0 {
      assert s[..n] == [];
      assert IndicesWhere(s, keep, n) == {};
    } else {
      var m := n - 1;
      FilterCountsIndices(s, keep, m);
      FilterPrefixStep(s, keep, m, n);
      IndicesStep(s, keep, m, n);
    }
  }

  lemma FilterPrefixStep<T(!new)>(s: seq<T>, keep: T -> bool, m: nat, n: nat)
    requires n == m + 1 && n <= |s|
    ensures |Filter(s[..n], keep)| == |Filter(s[..m], keep)| + (if keep(s[m]) then 1 else 0)
  {
    PrefixStep(s, n);
    FilterSnoc(s[..m], s[m], keep);
  }

  /** Appending one element adds one to the filter's length exactly when the element passes. */
  lemma FilterSnoc<T(!new)>(init: seq<T>, x: T, keep: T -> bool)
    ensures |Filter(init + [x], keep)| == |Filter(init, keep)| + (if keep(x) then 1 else 0)
  {
    FilterAppend(init, [x], keep);
    FilterSingleton(x, keep);
  }

  /** The positions below `n` whose element passes the test. */
  function IndicesWhere<T>(s: seq<T>, keep: T -> bool, n: nat): set<nat>
    requires n <= |s|
  {
    set i: nat | i < n && keep(s[i])
  }

  lemma IndicesStep<T>(s: seq<T>, keep: T -> bool, m: nat, n: nat)
    requires n == m + 1 && n <= |s|
    ensures |IndicesWhere(s, keep, n)| == |IndicesWhere(s, keep, m)| + (if keep(s[m]) then 1 else 0)
  {
    var before, after := IndicesWhere(s, keep, m), IndicesWhere(s, keep, n);
    if keep(s[m]) {
      assert after == before + {m};
      assert m !in before;
    } else {
      assert after == before;
    }
  }

  lemma PrefixStep<T>(s: seq<T>, n: nat)
    requires 0 < n <= |s|
    ensures s[..n] == s[..n - 1] + [s[n - 1]]
  {
  }

  /** `r` is obtained from `s` by deleting elements, without reordering. */
  predicate IsSubsequence<T(==)>(r: seq<T>, s: seq<T>)
    decreases |s|
  {
    if r == [] then true
    else if s == [] then false
    else if r[0] == s[0] then IsSubsequence(r[1..], s[1..])
    else IsSubsequence(r, s[1..])
  }

  lemma {:induction false} SubsequenceReflexive<T>(s: seq<T>)
    ensures IsSubsequence(s, s)
  {
    if s != [] {
      SubsequenceReflexive(s[1..]);
    }
  }

  /** What a filter keeps appears in the input's relative order. */
  lemma {:induction false} FilterIsSubsequence<T(!new)>(s: seq<T>, keep: T -> bool)
    ensures IsSubsequence(Filter(s, keep), s)
  {
    if s != [] {
      FilterIsSubsequence(s[1..], keep);
      var rest := Filter(s[1..], keep);
      if keep(s[0]) {
        assert Filter(s, keep) == [s[0]] + rest;
        assert ([s[0]] + rest)[1..] == rest;
      } else {
        assert Filter(s, keep) == rest;
      }
    }
  }

  /** Keys never decrease from left to right. */
  ghost predicate SortedBy<T>(s: seq<T>, key: T -> int) {
    forall i, j :: 0 <= i < j < |s| ==> key(s[i]) <= key(s[j])
  }

  /** The predicate "has key `k`", used to state stability one key class at a time. */
  function KeyIs<T>(key: T -> int, k: int): T -> bool {
    x => key(x) == k
  }

  /**
   * Inserts `x` after every element whose key is at most `key(x)`: the step of a
   * stable insertion sort in which `x` comes later than everything in `s`.
   */
  function InsertBy<T(!new)>(s: seq<T>, x: T, key: T -> int): (r: seq<T>)
    ensures |r| == |s| + 1
    ensures multiset(r) == multiset(s) + multiset{x}
    ensures forall z :: z in r <==> z in s || z == x
    ensures SortedBy(s, key) ==> SortedBy(r, key)
  {
    if s == [] || key(s[|s| - 1]) <= key(x) then
      AppendInOrder(s, x, key);
      s + [x]
    else
      var init, last := s[..|s| - 1], s[|s| - 1];
      SplitLast(s);
      var r := InsertBy(init, x, key) + [last];
      InsertBeforeLast(s, x, key, InsertBy(init, x, key));
      r
  }

  /** Appending an element whose key is at least the last key keeps the order. */
  lemma AppendInOrder<T>(s: seq<T>, x: T, key: T -> int)
    requires s == [] || key(s[|s| - 1]) <= key(x)
    ensures SortedBy(s, key) ==> SortedBy(s + [x], key)
  {
    if SortedBy(s, key) {
      forall i, j | 0 <= i < j < |s| + 1 ensures key((s + [x])[i]) <= key((s + [x])[j]) {
        if j == |s| {
          assert key(s[i]) <= key(s[|s| - 1]);
        }
      }
    }
  }

  /**
   * The recursive case of `InsertBy`: `ins` is `x` inserted into the front of
   * `s`, and the last element of `s`, whose key exceeds that of `x`, stays last.
   */
  lemma InsertBeforeLast<T>(s: seq<T>, x: T, key: T -> int, ins: seq<T>)
    requires s != [] && key(x) < key(s[|s| - 1])
    requires s == s[..|s| - 1] + [s[|s| - 1]]
    requires multiset(ins) == multiset(s[..|s| - 1]) + multiset{x}
    requires SortedBy(s[..|s| - 1], key) ==> SortedBy(ins, key)
    ensures multiset(ins + [s[|s| - 1]]) == multiset(s) + multiset{x}
    ensures forall z :: z in ins + [s[|s| - 1]] <==> z in s || z == x
    ensures SortedBy(s, key) ==> SortedBy(ins + [s[|s| - 1]], key)
  {
    var init, last := s[..|s| - 1], s[|s| - 1];
    var r := ins + [last];
    assert multiset(r) == multiset(s) + multiset{x} by {
      assert multiset(s) == multiset(init) + multiset{last};
    }
    forall z ensures z in r <==> z in s || z == x {
      assert z in r <==> z in multiset(r);
      assert z in s <==> z in multiset(s);
    }
    if SortedBy(s, key) {
      assert SortedBy(init, key);
      forall z | z in ins ensures key(z) <= key(last) {
        assert z in multiset(ins);
        if z != x {
          assert z in multiset(init);
          var i :| 0 <= i < |init| && init[i] == z;
          assert s[i] == z;
        }
      }
      forall i, j | 0 <= i < j < |r| ensures key(r[i]) <= key(r[j]) {
        if j == |ins| {
          assert r[i] == ins[i] && ins[i] in ins;
        } else {
          assert r[i] == ins[i] && r[j] == ins[j];
        }
      }
    }
  }

  /**
   * Python's `list.sort(key=key)` as a value: a stable sort, written as an
   * insertion sort that inserts the elements in their original order.
   */
  function SortBy<T(!new)>(s: seq<T>, key: T -> int): (r: seq<T>)
    ensures |r| == |s|
    ensures multiset(r) == multiset(s)
    ensures SortedBy(r, key)
  {
    if s == [] then []
    else
      assert s == s[..|s| - 1] + [s[|s| - 1]];
      InsertBy(SortBy(s[..|s| - 1], key), s[|s| - 1], key)
  }

  /** When `x` goes before the last element, that element stays last. */
  lemma InsertByRecursiveStep<T(!new)>(s: seq<T>, x: T, key: T -> int)
    requires s != [] && key(x) < key(s[|s| - 1])
    ensures InsertBy(s, x, key) == InsertBy(s[..|s| - 1], x, key) + [s[|s| - 1]]
  {
  }

  /** A non-empty sequence is its front followed by its last element. */
  lemma SplitLast<T>(s: seq<T>)
    requires s != []
    ensures s == s[..|s| - 1] + [s[|s| - 1]]
  {
  }

  /** Two pieces of which one is empty can be appended in either order. */
  lemma AppendEitherOrder<T>(a: seq<T>, b: seq<T>, c: seq<T>)
    requires b == [] || c == []
    ensures a + b + c == a + c + b
  {
    if b == [] {
      assert a + b == a;
    } else {
      assert a + c == a;
    }
  }

  /** Inserting `x` only appends it to its own key class. */
  lemma {:induction false} InsertByKeyClass<T(!new)>(s: seq<T>, x: T, key: T -> int, k: int)
    ensures Filter(InsertBy(s, x, key), KeyIs(key, k))
         == Filter(s, KeyIs(key, k)) + Filter([x], KeyIs(key, k))
  {
    var p := KeyIs(key, k);
    if s == [] || key(s[|s| - 1]) <= key(x) {
      FilterAppend(s, [x], p);
    } else {
      var init, last := s[..|s| - 1], s[|s| - 1];
      var ins := InsertBy(init, x, key);
      var fx, fl := Filter([x], p), Filter([last], p);
      InsertByRecursiveStep(s, x, key);
      FilterAppend(ins, [last], p);
      InsertByKeyClass(init, x, key, k);
      SplitLast(s);
      FilterAppend(init, [last], p);
      // x and last cannot both be in class k, because key(x) < key(last)
      FilterSingleton(x, p);
      FilterSingleton(last, p);
      AppendEitherOrder(Filter(init, p), fx, fl);
    }
  }

  /** Stability: within each key class the sort keeps the original order. */
  lemma {:induction false} SortByStable<T(!new)>(s: seq<T>, key: T -> int, k: int)
    ensures Filter(SortBy(s, key), KeyIs(key, k)) == Filter(s, KeyIs(key, k))
  {
    if s != [] {
      var init, last := s[..|s| - 1], s[|s| - 1];
      assert s == init + [last];
      SortByStable(init, key, k);
      InsertByKeyClass(SortBy(init, key), last, key, k);
      FilterAppend(init, [last], KeyIs(key, k));
    }
  }
}
