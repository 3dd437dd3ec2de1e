/**
 * Sequence operations the TypeScript code gets from `Array.prototype`:
 * `filter`, `reduce` to a sum, `Array.from(new Set(...))` (distinct values in
 * first-occurrence order), `find`, the stable `sort` with a numeric comparator,
 * and `join`.
 */
module Seqs {
  import opened Wrappers

  /** The elements of `s` that satisfy `p`, in their original order (`filter`). */
  function Filter<T(!new)>(s: seq<T>, p: T -> bool): (r: seq<T>)
    ensures |r| <= |s|
  {
    if s == [] then []
    else Filter(s[..|s| - 1], p) + (if p(s[|s| - 1]) then [s[|s| - 1]] else [])
  }

  /** The filter keeps exactly the elements that satisfy `p`, each as often as it occurs. */
  lemma {:induction false} FilterMembers<T(!new)>(s: seq<T>, p: T -> bool)
    ensures forall x :: x in Filter(s, p) <==> x in s && p(x)
    ensures forall x :: multiset(Filter(s, p))[x] == if p(x) then multiset(s)[x] else 0
  {
    if s != [] {
      var init, last := s[..|s| - 1], s[|s| - 1];
      assert s == init + [last];
      FilterMembers(init, p);
    }
  }

  lemma {:induction false} FilterAppend<T(!new)>(a: seq<T>, b: seq<T>, p: T -> bool)
    ensures Filter(a + b, p) == Filter(a, p) + Filter(b, p)
  {
    if b == [] {
      assert a + b == a;
    } else {
      var init := b[..|b| - 1];
      assert (a + b)[..|a + b| - 1] == a + init;
      FilterAppend(a, init, p);
    }
  }

  /** A filter that keeps nothing of `s` gives the empty sequence. */
  lemma {:induction false} FilterNone<T(!new)>(s: seq<T>, p: T -> bool)
    requires forall i :: 0 <= i < |s| ==> !p(s[i])
    ensures Filter(s, p) == []
  {
    if s != [] {
      FilterNone(s[..|s| - 1], p);
    }
  }

  /** The index of the first element that satisfies `p`, if any (`find`, by position). */
  function Find<T(!new)>(s: seq<T>, p: T -> bool): (r: Option<nat>)
    ensures r.Some? ==> r.value < |s| && p(s[r.value]) && forall m :: 0 <= m < r.value ==> !p(s[m])
    ensures r.None? ==> forall m :: 0 <= m < |s| ==> !p(s[m])
  {
    if s == [] then None
    else if p(s[0]) then Some(0)
    else
      var r := Find(s[1..], p);
      if r.Some? then Some(r.value + 1) else None
  }

  /** Sum of `f` over `s` (`reduce((sum, x) => sum + f(x), 0)`). */
  function Sum<T(!new)>(s: seq<T>, f: T -> int): int
  {
    if s == [] then 0 else Sum(s[..|s| - 1], f) + f(s[|s| - 1])
  }

  lemma {:induction false} SumAppend<T(!new)>(a: seq<T>, b: seq<T>, f: T -> int)
    ensures Sum(a + b, f) == Sum(a, f) + Sum(b, f)
  {
    if b == [] {
      assert a + b == a;
    } else {
      var init := b[..|b| - 1];
      assert (a + b)[..|a + b| - 1] == a + init;
      SumAppend(a, init, f);
    }
  }

  /** Setting one position of a sequence changes its sum by the difference. */
  lemma {:induction false} SumUpdate<T(!new)>(s: seq<T>, i: nat, v: T, f: T -> int)
    requires i < |s|
    ensures Sum(s[i := v], f) == Sum(s, f) - f(s[i]) + f(v)
  {
    var n := |s| - 1;
    if i < n {
      assert s[i := v][..n] == s[..n][i := v];
      SumUpdate(s[..n], i, v, f);
    } else {
      assert s[i := v][..n] == s[..n];
    }
  }

  lemma {:induction false} SumNonNegative<T(!new)>(s: seq<T>, f: T -> int)
    requires forall x :: x in s ==> f(x) >= 0
    ensures Sum(s, f) >= 0
  {
    if s != [] {
      assert forall x :: x in s[..|s| - 1] ==> x in s;
      SumNonNegative(s[..|s| - 1], f);
    }
  }

  ghost predicate NoDuplicates<T(!new)>(s: seq<T>)
  {
    forall i, j :: 0 <= i < j < |s| ==> s[i] != s[j]
  }

  /** The distinct values of `s` in first-occurrence order (`Array.from(new Set(s))`). */
  function Distinct<T(==,!new)>(s: seq<T>): (r: seq<T>)
    ensures forall x :: x in r <==> x in s
    ensures NoDuplicates(r)
  {
    if s == [] then []
    else
      var init, last := s[..|s| - 1], s[|s| - 1];
      assert s == init + [last];
      var d := Distinct(init);
      if last in d then d else d + [last]
  }

  /**
   * First-occurrence order: reading `s` from the left only ever appends to the
   * list of distinct values, so the values seen in any prefix of `s` come first.
   */
  lemma {:induction false} DistinctPrefix<T(!new)>(s: seq<T>, k: nat)
    requires k <= |s|
    ensures Distinct(s[..k]) <= Distinct(s)
  {
    if k < |s| {
      var init := s[..|s| - 1];
      assert init[..k] == s[..k];
      DistinctPrefix(init, k);
    } else {
      assert s[..k] == s;
    }
  }

  /** The number of distinct values is the size of the set of values. */
  lemma {:induction false} DistinctCount<T(!new)>(s: seq<T>)
    ensures |Distinct(s)| == |set x | x in s|
  {
    if s == [] {
      assert (set x | x in s) == {};
    } else {
      var init, last := s[..|s| - 1], s[|s| - 1];
      assert s == init + [last];
      DistinctCount(init);
      if last in init {
        assert (set x | x in s) == (set x | x in init);
      } else {
        assert (set x | x in s) == (set x | x in init) + {last};
      }
    }
  }

  ghost predicate SortedBy<T(!new)>(s: seq<T>, key: T -> int)
  {
    forall i, j :: 0 <= i < j < |s| ==> key(s[i]) <= key(s[j])
  }

  /** Inserts `x` into `s` after every element whose key is at most `key(x)`. */
  function InsertBy<T(!new)>(x: T, s: seq<T>, key: T -> int): (r: seq<T>)
    ensures |r| == |s| + 1
    ensures multiset(r) == multiset(s) + multiset{x}
  {
    if s == [] || key(s[|s| - 1]) <= key(x) then s + [x]
    else
      var init, last := s[..|s| - 1], s[|s| - 1];
      assert s == init + [last];
      InsertBy(x, init, key) + [last]
  }

  /** Inserting keeps every key at or below a common upper bound. */
  lemma {:induction false} InsertByBound<T(!new)>(x: T, s: seq<T>, key: T -> int, b: int)
    requires forall i :: 0 <= i < |s| ==> key(s[i]) <= b
    requires key(x) <= b
    ensures forall i :: 0 <= i < |InsertBy(x, s, key)| ==> key(InsertBy(x, s, key)[i]) <= b
  {
    if s != [] && key(s[|s| - 1]) > key(x) {
      InsertByBound(x, s[..|s| - 1], key, b);
    }
  }

  lemma {:induction false} InsertBySorted<T(!new)>(x: T, s: seq<T>, key: T -> int)
    requires SortedBy(s, key)
    ensures SortedBy(InsertBy(x, s, key), key)
  {
    if s != [] && key(s[|s| - 1]) > key(x) {
      var init, last := s[..|s| - 1], s[|s| - 1];
      InsertBySorted(x, init, key);
      InsertByBound(x, init, key, key(last));
    }
  }

  /**
   * The stable sort by an integer key (`sort((a, b) => key(a) - key(b))`,
   * which ECMAScript requires to be stable): an insertion sort that takes the
   * elements in their original order.
   */
  function SortBy<T(!new)>(s: seq<T>, key: T -> int): (r: seq<T>)
    ensures |r| == |s|
    ensures multiset(r) == multiset(s)
    ensures SortedBy(r, key)
  {
    if s == [] then []
    else
      var init, last := s[..|s| - 1], s[|s| - 1];
      assert s == init + [last];
      InsertBySorted(last, SortBy(init, key), key);
      InsertBy(last, SortBy(init, key), key)
  }

  /** Inserting into a sequence adds the inserted element's value to the sum. */
  lemma {:induction false} InsertBySum<T(!new)>(x: T, s: seq<T>, key: T -> int, f: T -> int)
    ensures Sum(InsertBy(x, s, key), f) == Sum(s, f) + f(x)
  {
    if s == [] || key(s[|s| - 1]) <= key(x) {
      assert (s + [x])[..|s|] == s;
    } else {
      var init, last := s[..|s| - 1], s[|s| - 1];
      var r := InsertBy(x, init, key);
      InsertBySum(x, init, key, f);
      assert (r + [last])[..|r|] == r;
    }
  }

  /** Sorting does not change a sum. */
  lemma {:induction false} SortBySum<T(!new)>(s: seq<T>, key: T -> int, f: T -> int)
    ensures Sum(SortBy(s, key), f) == Sum(s, f)
  {
    if s != [] {
      var init := s[..|s| - 1];
      SortBySum(init, key, f);
      InsertBySum(s[|s| - 1], SortBy(init, key), key, f);
    }
  }

  lemma SortByMembers<T(!new)>(s: seq<T>, key: T -> int)
    ensures forall x :: x in SortBy(s, key) <==> x in s
  {
    var r := SortBy(s, key);
    forall x
      ensures x in r <==> x in s
    {
      assert x in r <==> x in multiset(r);
      assert x in s <==> x in multiset(s);
    }
  }

  function HasKey<T(!new)>(key: T -> int, k: int): T -> bool
  {
    y => key(y) == k
  }

  lemma {:induction false} InsertByStable<T(!new)>(x: T, s: seq<T>, key: T -> int, k: int)
    ensures Filter(InsertBy(x, s, key), HasKey(key, k))
         == Filter(s, HasKey(key, k)) + (if key(x) == k then [x] else [])
  {
    var p := HasKey(key, k);
    if s == [] || key(s[|s| - 1]) <= key(x) {
      assert (s + [x])[..|s|] == s;
    } else {
      var init, last := s[..|s| - 1], s[|s| - 1];
      var r := InsertBy(x, init, key);
      InsertByStable(x, init, key, k);
      assert (r + [last])[..|r|] == r;
    }
  }

  /** Stability: elements with equal keys keep their original relative order. */
  lemma {:induction false} SortByStable<T(!new)>(s: seq<T>, key: T -> int, k: int)
    ensures Filter(SortBy(s, key), HasKey(key, k)) == Filter(s, HasKey(key, k))
  {
    if s != [] {
      var init, last := s[..|s| - 1], s[|s| - 1];
      SortByStable(init, key, k);
      InsertByStable(last, SortBy(init, key), key, k);
      assert s == init + [last];
    }
  }

  /** `parts.join(sep)`. */
  function Join(parts: seq<string>, sep: string): string
  {
    if parts == [] then ""
    else if |parts| == 1 then parts[0]
    else Join(parts[..|parts| - 1], sep) + sep + parts[|parts| - 1]
  }

  /** The same join, taken from the front: the first part, the separator, the join of the rest. */
  lemma {:induction false} JoinCons(parts: seq<string>, sep: string)
    requires |parts| >= 2
    ensures Join(parts, sep) == parts[0] + sep + Join(parts[1..], sep)
  {
    var n := |parts|;
    if n > 2 {
      var init := parts[..n - 1];
      JoinCons(init, sep);
      assert parts[1..][..n - 2] == init[1..];
    } else {
      assert parts[..1] == [parts[0]];
    }
  }

  /** A character in neither the parts nor the separator is not in their join. */
  lemma {:induction false} JoinExcludes(parts: seq<string>, sep: string, c: char)
    requires c !in sep && forall i :: 0 <= i < |parts| ==> c !in parts[i]
    ensures c !in Join(parts, sep)
  {
    if |parts| > 1 {
      JoinExcludes(parts[..|parts| - 1], sep, c);
    }
  }

  /** How often `c` occurs in the strings of `parts`, all together. */
  function CountIn(parts: seq<string>, c: char): nat
  {
    if parts == [] then 0 else CountIn(parts[..|parts| - 1], c) + multiset(parts[|parts| - 1])[c]
  }

  /** Joining `n` parts with a one-character separator adds `n - 1` copies of it. */
  lemma {:induction false} JoinCount(parts: seq<string>, sep: char, c: char)
    requires parts != []
    ensures multiset(Join(parts, [sep]))[c]
         == CountIn(parts, c) + (if sep == c then |parts| - 1 else 0)
  {
    if |parts| > 1 {
      JoinCount(parts[..|parts| - 1], sep, c);
    } else {
      assert parts[..0] == [];
    }
  }

  lemma {:induction false} CountInAppend(a: seq<string>, b: seq<string>, c: char)
    ensures CountIn(a + b, c) == CountIn(a, c) + CountIn(b, c)
  {
    if b != [] {
      var n := |b| - 1;
      assert (a + b)[..|a + b| - 1] == a + b[..n];
      CountInAppend(a, b[..n], c);
    } else {
      assert a + b == a;
    }
  }

  lemma {:induction false} CountInNone(parts: seq<string>, c: char)
    requires forall i :: 0 <= i < |parts| ==> c !in parts[i]
    ensures CountIn(parts, c) == 0
  {
    if parts != [] {
      CountInNone(parts[..|parts| - 1], c);
    }
  }

  lemma CountInFour(a: string, b: string, d: string, e: string, c: char)
    ensures CountIn([a, b, d, e], c) == multiset(a)[c] + multiset(b)[c] + multiset(d)[c] + multiset(e)[c]
  {
    assert [a, b, d, e][..3] == [a, b, d];
    assert [a, b, d][..2] == [a, b];
    assert [a, b][..1] == [a];
    assert [a][..0] == [];
    assert CountIn([a], c) == multiset(a)[c];
    assert CountIn([a, b], c) == CountIn([a], c) + multiset(b)[c];
    assert CountIn([a, b, d], c) == CountIn([a, b], c) + multiset(d)[c];
  }
}
