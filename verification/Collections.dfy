/** Shared vocabulary: optional values, order-preserving filters, and the stable sort
    that the repository obtains from the language's own `sorted` and `list.sort`. */
module Collections {

  datatype Option<+T> = None | Some(value: T)

  /** The elements of `xs` that satisfy `p`, in their original order. */
  function Filter<T>(xs: seq<T>, p: T -> bool): seq<T> {
    if xs == [] then []
    else if p(xs[0]) then [xs[0]] + Filter(xs[1..], p)
    else Filter(xs[1..], p)
  }

  lemma {:induction false} FilterConcat<T>(xs: seq<T>, ys: seq<T>, p: T -> bool)
    ensures Filter(xs + ys, p) == Filter(xs, p) + Filter(ys, p)
  {
    if xs == [] {
      assert xs + ys == ys;
    } else {
      assert (xs + ys)[1..] == xs[1..] + ys;
      FilterConcat(xs[1..], ys, p);
    }
  }

  lemma {:induction false} FilterMembers<T(!new)>(xs: seq<T>, p: T -> bool)
    ensures forall x :: x in Filter(xs, p) <==> x in xs && p(x)
    ensures |Filter(xs, p)| <= |xs|
  {
    if xs != [] {
      FilterMembers(xs[1..], p);
    }
  }

  lemma {:induction false} FilterMultiplicity<T>(xs: seq<T>, p: T -> bool, x: T)
    ensures multiset(Filter(xs, p))[x] == if p(x) then multiset(xs)[x] else 0
  {
    if xs != [] {
      FilterMultiplicity(xs[1..], p, x);
      assert xs == [xs[0]] + xs[1..];
    }
  }

  lemma FilterPermutation<T(!new)>(xs: seq<T>, ys: seq<T>, p: T -> bool)
    requires multiset(xs) == multiset(ys)
    ensures multiset(Filter(xs, p)) == multiset(Filter(ys, p)) && |Filter(xs, p)| == |Filter(ys, p)|
  {
    forall x
      ensures multiset(Filter(xs, p))[x] == multiset(Filter(ys, p))[x]
    {
      FilterMultiplicity(xs, p, x);
      FilterMultiplicity(ys, p, x);
    }
    assert multiset(Filter(xs, p)) == multiset(Filter(ys, p));
    assert |multiset(Filter(xs, p))| == |multiset(Filter(ys, p))|;
  }

  lemma {:induction false} FilterAll<T>(xs: seq<T>, p: T -> bool)
    requires forall x :: x in xs ==> p(x)
    ensures Filter(xs, p) == xs
  {
    if xs != [] {
      FilterAll(xs[1..], p);
    }
  }

  lemma {:induction false} FilterNone<T>(xs: seq<T>, p: T -> bool)
    requires forall x :: x in xs ==> !p(x)
    ensures Filter(xs, p) == []
  {
    if xs != [] {
      FilterNone(xs[1..], p);
    }
  }

  /** Where the head of `xs` sits in a permutation `ys`, and that what is left is again a permutation. */
  lemma PermutationHead<T>(xs: seq<T>, ys: seq<T>) returns (i: nat)
    requires xs != [] && multiset(xs) == multiset(ys)
    ensures i < |ys| && ys[i] == xs[0]
    ensures ys == ys[..i] + [ys[i]] + ys[i + 1..]
    ensures multiset(xs[1..]) == multiset(ys[..i] + ys[i + 1..])
  {
    assert xs[0] in multiset(ys);
    i :| 0 <= i < |ys| && ys[i] == xs[0];
    assert xs == [xs[0]] + xs[1..];
    assert ys == ys[..i] + [ys[i]] + ys[i + 1..];
    assert multiset(xs) == multiset{xs[0]} + multiset(xs[1..]);
    assert multiset(ys) == multiset(ys[..i]) + multiset{ys[i]} + multiset(ys[i + 1..]);
    assert multiset(xs[1..]) == multiset(xs) - multiset{xs[0]};
    assert multiset(ys[..i] + ys[i + 1..]) == multiset(ys) - multiset{ys[i]};
  }

  /** The index pairs `(i, j)` with `from <= j` whose element satisfies `p`. */
  ghost function Row<T>(xs: seq<T>, i: int, from: nat, p: T -> bool): set<(int, int)> {
    set j: int | from <= j < |xs| && p(xs[j]) :: (i, j)
  }

  lemma {:induction false} RowCardinality<T>(xs: seq<T>, i: int, from: nat, p: T -> bool)
    requires from <= |xs|
    ensures |Row(xs, i, from, p)| == |Filter(xs[from..], p)|
    decreases |xs| - from
  {
    if from < |xs| {
      RowCardinality(xs, i, from + 1, p);
      assert xs[from..][1..] == xs[from + 1..];
      assert Row(xs, i, from, p)
          == Row(xs, i, from + 1, p) + if p(xs[from]) then {(i, from as int)} else {};
    }
  }

  lemma Pick<T>(s: set<T>) returns (x: T)
    requires s != {}
    ensures x in s
  {
    x :| x in s;
  }

  lemma {:induction false} SubsetCardinality<T>(a: set<T>, b: set<T>)
    requires a <= b
    ensures |a| <= |b|
  {
    if a != {} {
      var x :| x in a;
      SubsetCardinality(a - {x}, b - {x});
    }
  }

  ghost predicate TotalPreorder<T(!new)>(le: (T, T) -> bool) {
    && (forall x, y :: le(x, y) || le(y, x))
    && (forall x, y, z :: le(x, y) && le(y, z) ==> le(x, z))
  }

  ghost predicate Sorted<T>(xs: seq<T>, le: (T, T) -> bool) {
    forall i, j | 0 <= i < j < |xs| :: le(xs[i], xs[j])
  }

  /** Puts `x` in front of the first element it may precede, so that equal keys keep their order. */
  function Insert<T>(x: T, xs: seq<T>, le: (T, T) -> bool): (r: seq<T>)
    ensures |r| == |xs| + 1
  {
    if xs == [] || le(x, xs[0]) then [x] + xs else [xs[0]] + Insert(x, xs[1..], le)
  }

  function Sort<T>(xs: seq<T>, le: (T, T) -> bool): (r: seq<T>)
    ensures |r| == |xs|
  {
    if xs == [] then [] else Insert(xs[0], Sort(xs[1..], le), le)
  }

  lemma {:induction false} InsertContents<T>(x: T, xs: seq<T>, le: (T, T) -> bool)
    ensures multiset(Insert(x, xs, le)) == multiset(xs) + multiset{x}
  {
    if xs != [] && !le(x, xs[0]) {
      InsertContents(x, xs[1..], le);
      assert xs == [xs[0]] + xs[1..];
    }
  }

  lemma SameMembers<T(!new)>(xs: seq<T>, ys: seq<T>)
    requires multiset(xs) == multiset(ys)
    ensures |xs| == |ys|
    ensures forall x :: x in xs <==> x in ys
  {
    assert |multiset(xs)| == |multiset(ys)|;
    forall x
      ensures x in xs <==> x in ys
    {
      assert x in multiset(xs) <==> x in multiset(ys);
    }
  }

  lemma SortedCons<T(!new)>(x: T, xs: seq<T>, le: (T, T) -> bool)
    requires Sorted(xs, le) && forall y | y in xs :: le(x, y)
    ensures Sorted([x] + xs, le)
  {
  }

  lemma {:induction false} InsertSorted<T(!new)>(x: T, xs: seq<T>, le: (T, T) -> bool)
    requires TotalPreorder(le) && Sorted(xs, le)
    ensures Sorted(Insert(x, xs, le), le)
    ensures multiset(Insert(x, xs, le)) == multiset(xs) + multiset{x}
  {
    InsertContents(x, xs, le);
    if xs != [] {
      var h, rest := xs[0], xs[1..];
      assert xs == [h] + rest;
      HeadPrecedes(h, rest, le);
      if le(x, h) {
        SortedCons(x, xs, le);
      } else {
        InsertSorted(x, rest, le);
        SameMembers(Insert(x, rest, le), rest + [x]);
        SortedCons(h, Insert(x, rest, le), le);
      }
    }
  }

  lemma HeadPrecedes<T(!new)>(h: T, rest: seq<T>, le: (T, T) -> bool)
    requires Sorted([h] + rest, le)
    ensures Sorted(rest, le) && forall y | y in rest :: le(h, y)
  {
    var xs := [h] + rest;
    assert rest == xs[1..];
    forall i, j | 0 <= i < j < |rest|
      ensures le(rest[i], rest[j])
    {
      assert le(xs[i + 1], xs[j + 1]);
    }
    forall y | y in rest
      ensures le(h, y)
    {
      var i :| 0 <= i < |rest| && rest[i] == y;
      assert le(xs[0], xs[i + 1]);
    }
  }

  lemma {:induction false} SortIsSorted<T(!new)>(xs: seq<T>, le: (T, T) -> bool)
    requires TotalPreorder(le)
    ensures Sorted(Sort(xs, le), le)
  {
    if xs != [] {
      SortIsSorted(xs[1..], le);
      InsertSorted(xs[0], Sort(xs[1..], le), le);
    }
  }

  lemma {:induction false} SortContents<T>(xs: seq<T>, le: (T, T) -> bool)
    ensures multiset(Sort(xs, le)) == multiset(xs)
  {
    if xs != [] {
      SortContents(xs[1..], le);
      InsertContents(xs[0], Sort(xs[1..], le), le);
      assert xs == [xs[0]] + xs[1..];
    }
  }

  lemma SortCorrect<T(!new)>(xs: seq<T>, le: (T, T) -> bool)
    requires TotalPreorder(le)
    ensures Sorted(Sort(xs, le), le)
    ensures multiset(Sort(xs, le)) == multiset(xs)
    ensures |Sort(xs, le)| == |xs|
    ensures forall x :: x in Sort(xs, le) <==> x in xs
  {
    SortIsSorted(xs, le);
    SortContents(xs, le);
    SameMembers(Sort(xs, le), xs);
  }

  lemma {:induction false} SortOfSorted<T>(xs: seq<T>, le: (T, T) -> bool)
    requires Sorted(xs, le)
    ensures Sort(xs, le) == xs
  {
    if xs != [] {
      SortOfSorted(xs[1..], le);
    }
  }

  lemma {:induction false} FilterInsert<T(!new)>(x: T, xs: seq<T>, le: (T, T) -> bool, p: T -> bool)
    requires TotalPreorder(le) && Sorted(xs, le)
    ensures Filter(Insert(x, xs, le), p)
            == if p(x) then Insert(x, Filter(xs, p), le) else Filter(xs, p)
  {
    if xs == [] {
    } else if le(x, xs[0]) {
      assert ([x] + xs)[1..] == xs;
      FilterMembers(xs, p);
      var f := Filter(xs, p);
      if f != [] {
        assert f[0] in xs;
        assert le(x, f[0]);
      }
    } else {
      assert ([xs[0]] + Insert(x, xs[1..], le))[1..] == Insert(x, xs[1..], le);
      FilterInsert(x, xs[1..], le, p);
      if p(xs[0]) {
        assert Filter(xs, p)[1..] == Filter(xs[1..], p);
      }
    }
  }

  /** A stable sort commutes with every filter. Taking `p` to be "has this key" is stability itself. */
  lemma {:induction false} FilterSort<T(!new)>(xs: seq<T>, le: (T, T) -> bool, p: T -> bool)
    requires TotalPreorder(le)
    ensures Filter(Sort(xs, le), p) == Sort(Filter(xs, p), le)
  {
    if xs != [] {
      FilterSort(xs[1..], le, p);
      SortCorrect(xs[1..], le);
      FilterInsert(xs[0], Sort(xs[1..], le), le, p);
      if p(xs[0]) {
        assert Filter(xs, p)[1..] == Filter(xs[1..], p);
      }
    }
  }

  lemma {:induction false} FilterFilter<T>(xs: seq<T>, p: T -> bool, q: T -> bool, both: T -> bool)
    requires forall x :: x in xs ==> (both(x) <==> p(x) && q(x))
    ensures Filter(Filter(xs, p), q) == Filter(xs, both)
  {
    if xs != [] {
      FilterFilter(xs[1..], p, q, both);
      if p(xs[0]) {
        assert Filter(xs, p)[1..] == Filter(xs[1..], p);
      }
    }
  }

  lemma {:induction false} FilterSubsequenceSorted<T(!new)>(xs: seq<T>, le: (T, T) -> bool, p: T -> bool)
    requires Sorted(xs, le)
    ensures Sorted(Filter(xs, p), le)
  {
    if xs != [] {
      FilterSubsequenceSorted(xs[1..], le, p);
      FilterMembers(xs[1..], p);
      var f := Filter(xs[1..], p);
      forall j | 0 <= j < |f|
        ensures le(xs[0], f[j])
      {
        var x := f[j];
        assert x in f;
        assert x in xs[1..];
        var k :| 0 <= k < |xs[1..]| && xs[1..][k] == x;
        assert xs[k + 1] == x;
      }
    }
  }
}

/** Strings under the code-point order that the repository's `min`, `max` and `sorted` use on addresses. */
module Text {

  predicate Le(a: string, b: string) {
    a == "" || (b != "" && (a[0] < b[0] || (a[0] == b[0] && Le(a[1..], b[1..]))))
  }

  predicate Lt(a: string, b: string) {
    Le(a, b) && a != b
  }

  lemma LeTotal(a: string, b: string)
    ensures Le(a, b) || Le(b, a)
  {
  }

  lemma {:induction false} LeAntisymmetric(a: string, b: string)
    requires Le(a, b) && Le(b, a)
    ensures a == b
  {
    if a != "" {
      LeAntisymmetric(a[1..], b[1..]);
      assert a == [a[0]] + a[1..] && b == [b[0]] + b[1..];
    }
  }

  lemma {:induction false} LeTransitive(a: string, b: string, c: string)
    requires Le(a, b) && Le(b, c)
    ensures Le(a, c)
  {
    if a != "" && a[0] == b[0] == c[0] {
      LeTransitive(a[1..], b[1..], c[1..]);
    }
  }

  /** Shorter and a prefix, or smaller at the first place where the two differ. */
  ghost predicate Precedes(a: string, b: string, k: nat) {
    && k <= |a| && k <= |b| && a[..k] == b[..k]
    && (k == |a| < |b| || (k < |a| && k < |b| && a[k] < b[k]))
  }

  lemma SameHead(a: string, b: string, k: nat)
    requires Precedes(a, b, k)
    ensures k == 0 || a[0] == b[0]
  {
    if k > 0 {
      assert a[..k][0] == b[..k][0];
    }
  }

  /** The order is the lexicographic one by code point. */
  lemma {:induction false} LtIsLexicographic(a: string, b: string)
    ensures Lt(a, b) <==> exists k :: Precedes(a, b, k)
  {
    if a == "" || b == "" {
      if a == "" && b != "" {
        assert Precedes(a, b, 0);
      }
    } else if a[0] != b[0] {
      if a[0] < b[0] {
        assert Precedes(a, b, 0);
      }
      if k: nat :| Precedes(a, b, k) {
        SameHead(a, b, k);
      }
    } else {
      LtIsLexicographic(a[1..], b[1..]);
      assert a == [a[0]] + a[1..] && b == [b[0]] + b[1..];
      if k: nat :| Precedes(a[1..], b[1..], k) {
        assert a[..k + 1] == [a[0]] + a[1..][..k] && b[..k + 1] == [b[0]] + b[1..][..k];
        assert Precedes(a, b, k + 1);
      }
      if k: nat :| Precedes(a, b, k) {
        assert k > 0;
        assert a[1..][..k - 1] == a[..k][1..] && b[1..][..k - 1] == b[..k][1..];
        assert Precedes(a[1..], b[1..], k - 1);
      }
    }
  }

  lemma LeTotalOrder()
    ensures forall a, b :: Le(a, b) || Le(b, a)
    ensures forall a, b :: Le(a, b) && Le(b, a) ==> a == b
    ensures forall a, b, c :: Le(a, b) && Le(b, c) ==> Le(a, c)
  {
    forall a, b
      ensures Le(a, b) || Le(b, a)
    {
      LeTotal(a, b);
    }
    forall a, b | Le(a, b) && Le(b, a)
      ensures a == b
    {
      LeAntisymmetric(a, b);
    }
    forall a, b, c | Le(a, b) && Le(b, c)
      ensures Le(a, c)
    {
      LeTransitive(a, b, c);
    }
  }
}
