/** The array operations the JavaScript code chains: `filter`, `map`, a sum by
    `forEach`, `slice(0, n)`, `new Set(...)` in first-occurrence order, and the
    stable `sort` of the JavaScript engine with a numeric or string key. */
module Seqs {
  import Text

  /** `s.filter(p)`. */
  function Filter<T(!new)>(s: seq<T>, p: T -> bool): (r: seq<T>)
    ensures |r| <= |s|
    ensures forall x :: x in r <==> x in s && p(x)
    ensures forall i :: 0 <= i < |r| ==> p(r[i])
  {
    if s == [] then []
    else if p(s[0]) then [s[0]] + Filter(s[1..], p)
    else Filter(s[1..], p)
  }

  /** Filtering distributes over concatenation. */
  lemma {:induction false} FilterAppend<T(!new)>(a: seq<T>, b: seq<T>, p: T -> bool)
    ensures Filter(a + b, p) == Filter(a, p) + Filter(b, p)
  {
    if a == [] {
      assert a + b == b;
    } else {
      assert (a + b)[1..] == a[1..] + b;
      FilterAppend(a[1..], b, p);
    }
  }

  /** A filter that keeps every element is the identity. */
  lemma {:induction false} FilterAll<T(!new)>(s: seq<T>, p: T -> bool)
    requires forall i :: 0 <= i < |s| ==> p(s[i])
    ensures Filter(s, p) == s
  {
    if s != [] {
      FilterAll(s[1..], p);
    }
  }

  /** `s.filter(p).length`. */
  function Count<T(!new)>(s: seq<T>, p: T -> bool): (n: nat)
    ensures n <= |s|
  {
    |Filter(s, p)|
  }

  /** The count of a non-empty sequence: its head, then its tail. */
  lemma CountCons<T(!new)>(s: seq<T>, p: T -> bool)
    requires s != []
    ensures Count(s, p) == (if p(s[0]) then 1 else 0) + Count(s[1..], p)
  {
  }

  /** Every element passes exactly one of a test and its negation, so the two
      counts add up to the length. */
  lemma {:induction false} CountSplit<T(!new)>(s: seq<T>, p: T -> bool, q: T -> bool)
    requires forall x :: q(x) == !p(x)
    ensures Count(s, p) + Count(s, q) == |s|
  {
    if s != [] {
      CountSplit(s[1..], p, q);
    }
  }

  /** Nothing is counted by a test that nothing passes. */
  lemma {:induction false} CountNone<T(!new)>(s: seq<T>, p: T -> bool)
    requires forall x :: !p(x)
    ensures Count(s, p) == 0
  {
    if s != [] {
      CountNone(s[1..], p);
    }
  }

  /** Counting is monotone in the test. */
  lemma {:induction false} CountMonotone<T(!new)>(s: seq<T>, p: T -> bool, q: T -> bool)
    requires forall x :: p(x) ==> q(x)
    ensures Count(s, p) <= Count(s, q)
  {
    if s != [] {
      CountMonotone(s[1..], p, q);
    }
  }

  /** Two disjoint tests count no more than the elements that pass either. */
  lemma {:induction false} CountDisjoint<T(!new)>(s: seq<T>, p: T -> bool, q: T -> bool)
    requires forall x :: !(p(x) && q(x))
    ensures Count(s, p) + Count(s, q) <= |s|
  {
    if s != [] {
      CountDisjoint(s[1..], p, q);
    }
  }

  /** `s.map(f)`. */
  function Map<T, U>(s: seq<T>, f: T -> U): (r: seq<U>)
    ensures |r| == |s| && forall i :: 0 <= i < |s| ==> r[i] == f(s[i])
  {
    seq(|s|, i requires 0 <= i < |s| => f(s[i]))
  }

  /** The sum of `f` over `s`, as a `forEach` accumulation. */
  function SumBy<T>(s: seq<T>, f: T -> int): int {
    if s == [] then 0 else f(s[0]) + SumBy(s[1..], f)
  }

  lemma {:induction false} SumByAppend<T(!new)>(a: seq<T>, b: seq<T>, f: T -> int)
    ensures SumBy(a + b, f) == SumBy(a, f) + SumBy(b, f)
  {
    if a == [] {
      assert a + b == b;
    } else {
      assert (a + b)[1..] == a[1..] + b;
      SumByAppend(a[1..], b, f);
    }
  }

  /** `s.slice(0, n)`: a negative `n` counts from the end. */
  function Slice0<T>(s: seq<T>, n: int): (r: seq<T>)
    ensures |r| <= |s| && r == s[..|r|]
    ensures n >= 0 ==> |r| == if n < |s| then n else |s|
  {
    if n >= |s| then s
    else if n >= 0 then s[..n]
    else if |s| + n >= 0 then s[..|s| + n]
    else []
  }

  /** The elements of `s` in first-occurrence order without repetition: the
      iteration order of `new Set(s)`. */
  function Distinct<T(==)>(s: seq<T>): (r: seq<T>)
    ensures |r| <= |s|
  {
    if s == [] then []
    else
      var rest := Distinct(s[..|s| - 1]);
      if s[|s| - 1] in rest then rest else rest + [s[|s| - 1]]
  }

  /** `Distinct(s)` holds the elements of `s`, each once. */
  lemma {:induction false} DistinctMeaning<T>(s: seq<T>)
    ensures forall x :: x in Distinct(s) <==> x in s
    ensures forall i, j :: 0 <= i < j < |Distinct(s)| ==> Distinct(s)[i] != Distinct(s)[j]
    decreases |s|
  {
    if s != [] {
      var init := s[..|s| - 1];
      DistinctMeaning(init);
      assert s == init + [s[|s| - 1]];
      forall x
        ensures x in s <==> x in init || x == s[|s| - 1]
      {
      }
    }
  }

  predicate SortedByInt<T>(s: seq<T>, key: T -> int) {
    forall i, j :: 0 <= i < j < |s| ==> key(s[i]) <= key(s[j])
  }

  /** Inserts `x` before the first element whose key is not smaller. */
  function InsertByInt<T(!new)>(x: T, s: seq<T>, key: T -> int): (r: seq<T>)
    ensures multiset(r) == multiset(s) + multiset{x}
    ensures forall i :: 0 <= i < |r| ==> r[i] == x || r[i] in s
  {
    if s == [] || key(x) <= key(s[0]) then [x] + s
    else
      assert s == [s[0]] + s[1..];
      [s[0]] + InsertByInt(x, s[1..], key)
  }

  lemma {:induction false} InsertByIntSorted<T(!new)>(x: T, s: seq<T>, key: T -> int)
    requires SortedByInt(s, key)
    ensures SortedByInt(InsertByInt(x, s, key), key)
  {
    if s != [] && key(x) > key(s[0]) {
      InsertByIntSorted(x, s[1..], key);
      var rest := InsertByInt(x, s[1..], key);
      assert forall i :: 0 <= i < |rest| ==> key(s[0]) <= key(rest[i]);
    }
  }

  /** `s.sort((a, b) => key(a) - key(b))`: a stable sort by a numeric key. */
  function SortByInt<T(!new)>(s: seq<T>, key: T -> int): (r: seq<T>)
    ensures SortedByInt(r, key)
    ensures multiset(r) == multiset(s) && |r| == |s|
  {
    if s == [] then []
    else
      assert s == [s[0]] + s[1..];
      InsertByIntSorted(s[0], SortByInt(s[1..], key), key);
      InsertByInt(s[0], SortByInt(s[1..], key), key)
  }

  /** Sorting keeps the elements of each key in their original order. */
  lemma {:induction false} SortByIntStable<T(!new)>(s: seq<T>, key: T -> int, k: int)
    ensures Filter(SortByInt(s, key), x => key(x) == k) == Filter(s, x => key(x) == k)
  {
    if s != [] {
      SortByIntStable(s[1..], key, k);
      InsertByIntStable(s[0], SortByInt(s[1..], key), key, k);
    }
  }

  lemma {:induction false} InsertByIntStable<T(!new)>(x: T, s: seq<T>, key: T -> int, k: int)
    ensures Filter(InsertByInt(x, s, key), y => key(y) == k) == Filter([x] + s, y => key(y) == k)
  {
    var p := (y: T) => key(y) == k;
    if s == [] || key(x) <= key(s[0]) {
    } else {
      InsertByIntStable(x, s[1..], key, k);
      assert ([x] + s)[1..] == s;
      assert ([x] + s[1..])[1..] == s[1..];
      assert s == [s[0]] + s[1..];
      if key(x) == k {
        // every element of s before x's insertion point has a key below key(x)
        assert !p(s[0]);
      }
    }
  }

  predicate SortedByText<T>(s: seq<T>, key: T -> string) {
    forall i, j :: 0 <= i < j < |s| ==> Text.LessEq(key(s[i]), key(s[j]))
  }

  /** Inserts `x` before the first element whose key is not smaller. */
  function InsertByText<T(!new)>(x: T, s: seq<T>, key: T -> string): (r: seq<T>)
    requires SortedByText(s, key)
    ensures SortedByText(r, key)
    ensures multiset(r) == multiset(s) + multiset{x}
    ensures forall i :: 0 <= i < |r| ==> r[i] == x || r[i] in s
  {
    if s == [] then [x]
    else if !Text.Less(key(s[0]), key(x)) then
      Text.NotLessIsGreaterEq(key(s[0]), key(x));
      assert forall i :: 0 <= i < |s| ==> Text.LessEq(key(x), key(s[i])) by {
        forall i | 0 <= i < |s|
          ensures Text.LessEq(key(x), key(s[i]))
        {
          Text.LessEqTransitive(key(x), key(s[0]), key(s[i]));
        }
      }
      [x] + s
    else
      var rest := InsertByText(x, s[1..], key);
      assert s == [s[0]] + s[1..];
      Text.NotLessIsGreaterEq(key(x), key(s[0]));
      assert forall i :: 0 <= i < |rest| ==> Text.LessEq(key(s[0]), key(rest[i])) by {
        forall i | 0 <= i < |rest|
          ensures Text.LessEq(key(s[0]), key(rest[i]))
        {
        }
      }
      [s[0]] + rest
  }

  /** `s.sort((a, b) => key(a).localeCompare(key(b)))` and the default `sort()`
      of strings: a stable sort by a string key in code-point order. */
  function SortByText<T(!new)>(s: seq<T>, key: T -> string): (r: seq<T>)
    ensures SortedByText(r, key)
    ensures multiset(r) == multiset(s) && |r| == |s|
  {
    if s == [] then []
    else
      assert s == [s[0]] + s[1..];
      InsertByText(s[0], SortByText(s[1..], key), key)
  }

  /** `s.reverse()`. */
  function Reverse<T>(s: seq<T>): (r: seq<T>)
    ensures |r| == |s| && forall i :: 0 <= i < |s| ==> r[i] == s[|s| - 1 - i]
    ensures multiset(r) == multiset(s)
  {
    if s == [] then []
    else
      assert s == [s[0]] + s[1..];
      Reverse(s[1..]) + [s[0]]
  }

  /** Filtering twice keeps what passes both tests. */
  lemma {:induction false} FilterFilter<T(!new)>(s: seq<T>, p: T -> bool, q: T -> bool)
    ensures Filter(Filter(s, p), q) == Filter(s, x => p(x) && q(x))
  {
    if s != [] {
      FilterFilter(s[1..], p, q);
      if p(s[0]) {
        assert Filter(s, p) == [s[0]] + Filter(s[1..], p);
        assert Filter(s, p)[1..] == Filter(s[1..], p);
      }
    }
  }

  /** Filtering twice keeps what passes a test equivalent to both. */
  lemma {:induction false} FilterFilterAs<T(!new)>(s: seq<T>, p: T -> bool, q: T -> bool, pq: T -> bool)
    requires forall x :: pq(x) == (p(x) && q(x))
    ensures Filter(Filter(s, p), q) == Filter(s, pq)
  {
    if s != [] {
      FilterFilterAs(s[1..], p, q, pq);
      if p(s[0]) {
        assert Filter(s, p) == [s[0]] + Filter(s[1..], p);
        assert Filter(s, p)[1..] == Filter(s[1..], p);
      }
    }
  }

  /** A filter depends only on the test's answers for the elements present. */
  lemma {:induction false} FilterExt<T(!new)>(s: seq<T>, p: T -> bool, q: T -> bool)
    requires forall i :: 0 <= i < |s| ==> p(s[i]) == q(s[i])
    ensures Filter(s, p) == Filter(s, q)
  {
    if s != [] {
      FilterExt(s[1..], p, q);
    }
  }

  /** Replacing one element changes the sum by the difference. */
  lemma {:induction false} SumByUpdate<T(!new)>(s: seq<T>, i: nat, x: T, f: T -> int)
    requires i < |s|
    ensures SumBy(s[i := x], f) == SumBy(s, f) - f(s[i]) + f(x)
  {
    if i > 0 {
      SumByUpdate(s[1..], i - 1, x, f);
      assert s[i := x][1..] == s[1..][i - 1 := x];
    } else {
      assert s[i := x][1..] == s[1..];
    }
  }

  /** Inserting into a sorted sequence adds the element's share to the sum. */
  lemma {:induction false} SumByInsertByText<T(!new)>(x: T, s: seq<T>, key: T -> string, f: T -> int)
    requires SortedByText(s, key)
    ensures SumBy(InsertByText(x, s, key), f) == f(x) + SumBy(s, f)
  {
    if s != [] && Text.Less(key(s[0]), key(x)) {
      SumByInsertByText(x, s[1..], key, f);
    }
  }

  /** Sorting does not change a sum. */
  lemma {:induction false} SumBySortByText<T(!new)>(s: seq<T>, key: T -> string, f: T -> int)
    ensures SumBy(SortByText(s, key), f) == SumBy(s, f)
  {
    if s != [] {
      SumBySortByText(s[1..], key, f);
      SumByInsertByText(s[0], SortByText(s[1..], key), key, f);
    }
  }

  /** The values `f` takes on `s`: `new Set(s.map(f))`. */
  function Image<T(==), U>(s: seq<T>, f: T -> U): set<U> {
    set x | x in s :: f(x)
  }

  /** A set built from a sequence has at most as many members as the sequence. */
  lemma {:induction false} ImageSize<T, U>(s: seq<T>, f: T -> U)
    ensures |Image(s, f)| <= |s|
  {
    if s != [] {
      var init := s[..|s| - 1];
      ImageSize(init, f);
      assert s == init + [s[|s| - 1]];
      assert Image(s, f) == Image(init, f) + {f(s[|s| - 1])};
    }
  }

  /** Counting distributes over concatenation. */
  lemma CountAppend<T(!new)>(a: seq<T>, b: seq<T>, p: T -> bool)
    ensures Count(a + b, p) == Count(a, p) + Count(b, p)
  {
    FilterAppend(a, b, p);
  }

  /** Counting after a `map` counts the composed test. */
  lemma {:induction false} CountMap<T(!new), U(!new)>(s: seq<T>, f: T -> U, p: U -> bool, q: T -> bool)
    requires forall x :: q(x) == p(f(x))
    ensures Count(Map(s, f), p) == Count(s, q)
  {
    if s != [] {
      CountMap(s[1..], f, p, q);
      assert Map(s, f)[1..] == Map(s[1..], f);
      CountCons(Map(s, f), p);
      CountCons(s, q);
    }
  }

  /** Summing after a `map` sums the composed function. */
  lemma {:induction false} SumByMap<T, U>(s: seq<T>, f: T -> U, g: U -> int, h: T -> int)
    requires forall x :: h(x) == g(f(x))
    ensures SumBy(Map(s, f), g) == SumBy(s, h)
  {
    if s != [] {
      SumByMap(s[1..], f, g, h);
      assert Map(s, f)[1..] == Map(s[1..], f);
    }
  }

  /** After a sort by a numeric key, the first `n` elements have keys no
      larger than any element left out. */
  lemma SortedPrefixDominates<T>(s: seq<T>, key: T -> int, n: int, y: T)
    requires SortedByInt(s, key)
    requires y in s && y !in Slice0(s, n)
    ensures forall i :: 0 <= i < |Slice0(s, n)| ==> key(Slice0(s, n)[i]) <= key(y)
  {
    var r := Slice0(s, n);
    var j :| 0 <= j < |s| && s[j] == y;
    assert forall i :: 0 <= i < |r| ==> r[i] == s[i] && r[i] != y;
  }

  /** An element at two positions occurs at least twice. */
  lemma TwiceInMultiset<T>(s: seq<T>, i: nat, j: nat)
    requires i < j < |s| && s[i] == s[j]
    ensures multiset(s)[s[i]] >= 2
  {
    assert s == s[..j] + s[j..];
    assert s[i] in s[..j];
    assert s[j..][0] == s[j];
  }

  /** An element occurring at least twice sits at two positions. */
  lemma TwoPositions<T>(s: seq<T>, x: T)
    requires multiset(s)[x] >= 2
    ensures exists i, j :: 0 <= i < j < |s| && s[i] == x && s[j] == x
  {
    assert x in multiset(s);
    var i :| 0 <= i < |s| && s[i] == x;
    assert s == s[..i] + [s[i]] + s[i + 1..];
    assert multiset(s[..i] + s[i + 1..])[x] >= 1;
    assert x in s[..i] + s[i + 1..];
    var k :| 0 <= k < |s[..i] + s[i + 1..]| && (s[..i] + s[i + 1..])[k] == x;
    if k < i {
      assert s[k] == x;
    } else {
      assert s[k + 1] == x;
    }
  }

  /** Rearranging a sequence whose elements have pairwise different keys keeps
      the keys pairwise different. */
  lemma PermutationKeepsKeysDistinct<T, K>(s: seq<T>, r: seq<T>, key: T -> K)
    requires multiset(r) == multiset(s)
    requires forall i, j :: 0 <= i < j < |s| ==> key(s[i]) != key(s[j])
    ensures forall i, j :: 0 <= i < j < |r| ==> key(r[i]) != key(r[j])
  {
    forall i, j | 0 <= i < j < |r|
      ensures key(r[i]) != key(r[j])
    {
      if r[i] == r[j] {
        TwiceInMultiset(r, i, j);
        TwoPositions(s, r[i]);
      } else {
        assert r[i] in multiset(s) && r[j] in multiset(s);
        var a :| 0 <= a < |s| && s[a] == r[i];
        var b :| 0 <= b < |s| && s[b] == r[j];
        assert a != b;
      }
    }
  }

  /** A filter nothing passes is empty. */
  lemma {:induction false} FilterNone<T(!new)>(s: seq<T>, p: T -> bool)
    requires forall i :: 0 <= i < |s| ==> !p(s[i])
    ensures Filter(s, p) == []
  {
    if s != [] {
      FilterNone(s[1..], p);
    }
  }

  /** The first `n` elements after a sort all come from the sorted sequence. */
  lemma SortSliceMembers<T(!new)>(s: seq<T>, key: T -> int, n: int)
    ensures forall i :: 0 <= i < |Slice0(SortByInt(s, key), n)| ==> Slice0(SortByInt(s, key), n)[i] in s
  {
    var sorted := SortByInt(s, key);
    forall i | 0 <= i < |Slice0(sorted, n)|
      ensures Slice0(sorted, n)[i] in s
    {
      assert Slice0(sorted, n)[i] == sorted[i];
      assert sorted[i] in multiset(sorted);
    }
  }

  /** The image of a sequence with one more element gains that element's value. */
  lemma ImageSnoc<T, U>(s: seq<T>, x: T, f: T -> U)
    ensures Image(s + [x], f) == Image(s, f) + {f(x)}
  {
    forall y | y in Image(s + [x], f)
      ensures y in Image(s, f) + {f(x)}
    {
      var z :| z in s + [x] && f(z) == y;
      if z != x {
        assert z in s;
      }
    }
    assert x in s + [x];
    forall y | y in Image(s, f)
      ensures y in Image(s + [x], f)
    {
      var z :| z in s && f(z) == y;
      assert z in s + [x];
    }
  }

  /** Filtering a sequence whose elements have pairwise different keys keeps
      the keys pairwise different. */
  lemma {:induction false} FilterKeepsKeysDistinct<T(!new), K>(s: seq<T>, p: T -> bool, key: T -> K)
    requires forall i, j :: 0 <= i < j < |s| ==> key(s[i]) != key(s[j])
    ensures forall i, j :: 0 <= i < j < |Filter(s, p)| ==> key(Filter(s, p)[i]) != key(Filter(s, p)[j])
  {
    if s != [] {
      FilterKeepsKeysDistinct(s[1..], p, key);
      assert forall m :: 0 <= m < |s[1..]| ==> key(s[1..][m]) != key(s[0]);
    }
  }

  /** `filter` then `map` over one more element. */
  lemma MapFilterSnoc<T(!new), U>(xs: seq<T>, x: T, p: T -> bool, f: T -> U)
    ensures Map(Filter(xs + [x], p), f)
      == Map(Filter(xs, p), f) + if p(x) then [f(x)] else []
  {
    FilterAppend(xs, [x], p);
    assert Filter([x], p) == if p(x) then [x] else [];
    var front := Filter(xs, p);
    var back := Filter([x], p);
    assert Map(front + back, f) == Map(front, f) + Map(back, f);
  }
}
