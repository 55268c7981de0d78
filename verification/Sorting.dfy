/** The library's sort, seen through what determines its result. */
module Sorting {
  ghost predicate TotalOrder<T(!new)>(le: (T, T) -> bool) {
    (forall a, b :: le(a, b) || le(b, a)) &&
    (forall a, b :: le(a, b) && le(b, a) ==> a == b) &&
    (forall a, b, c :: le(a, b) && le(b, c) ==> le(a, c))
  }

  ghost predicate Sorted<T>(s: seq<T>, le: (T, T) -> bool) {
    forall i, j :: 0 <= i < j < |s| ==> le(s[i], s[j])
  }

  function Insert<T>(x: T, s: seq<T>, le: (T, T) -> bool): seq<T> {
    if s == [] || le(x, s[0]) then [x] + s else [s[0]] + Insert(x, s[1..], le)
  }

  /** The library's `sort`, which is determined by its result being sorted and a permutation. */
  function Sort<T>(s: seq<T>, le: (T, T) -> bool): seq<T> {
    if s == [] then [] else Insert(s[0], Sort(s[1..], le), le)
  }

  lemma {:induction false} InsertPermutes<T>(x: T, s: seq<T>, le: (T, T) -> bool)
    ensures multiset(Insert(x, s, le)) == multiset(s) + multiset{x}
  {
    if s != [] && !le(x, s[0]) {
      InsertPermutes(x, s[1..], le);
      assert s == [s[0]] + s[1..];
    }
  }

  lemma {:induction false} SortPermutes<T>(s: seq<T>, le: (T, T) -> bool)
    ensures multiset(Sort(s, le)) == multiset(s)
  {
    if s != [] {
      SortPermutes(s[1..], le);
      InsertPermutes(s[0], Sort(s[1..], le), le);
      assert s == [s[0]] + s[1..];
    }
  }

  lemma {:induction false} InsertSorts<T(!new)>(x: T, s: seq<T>, le: (T, T) -> bool)
    requires TotalOrder(le) && Sorted(s, le)
    ensures Sorted(Insert(x, s, le), le)
  {
    if s != [] && !le(x, s[0]) {
      var rest := Insert(x, s[1..], le);
      InsertSorts(x, s[1..], le);
      InsertPermutes(x, s[1..], le);
      SameElements(rest, s[1..] + [x]);
      forall i | 0 <= i < |rest| ensures le(s[0], rest[i]) {
        assert rest[i] == x || rest[i] in s[1..];
      }
    }
  }

  lemma {:induction false} SortSorts<T(!new)>(s: seq<T>, le: (T, T) -> bool)
    requires TotalOrder(le)
    ensures Sorted(Sort(s, le), le)
  {
    if s != [] {
      SortSorts(s[1..], le);
      InsertSorts(s[0], Sort(s[1..], le), le);
    }
  }

  lemma SameElements<T>(a: seq<T>, b: seq<T>)
    requires multiset(a) == multiset(b)
    ensures forall i :: 0 <= i < |a| ==> a[i] in b
  {
    forall i | 0 <= i < |a| ensures a[i] in b {
      assert a[i] in multiset(b);
    }
  }

  lemma RestOf<T>(s: seq<T>)
    requires s != []
    ensures multiset(s[1..]) == multiset(s) - multiset{s[0]}
  {
    assert s == [s[0]] + s[1..];
  }

  /** Sorted lists of the same elements begin alike. */
  lemma FirstAgrees<T(!new)>(a: seq<T>, b: seq<T>, le: (T, T) -> bool)
    requires TotalOrder(le) && Sorted(a, le) && Sorted(b, le) && a != [] && b != []
    requires a[0] in b && b[0] in a
    ensures a[0] == b[0]
  {
    assert le(a[0], b[0]) && le(b[0], a[0]);
  }

  lemma TailIsSorted<T>(s: seq<T>, le: (T, T) -> bool)
    requires Sorted(s, le) && s != []
    ensures Sorted(s[1..], le)
  {
  }

  lemma SortedHeads<T(!new)>(a: seq<T>, b: seq<T>, le: (T, T) -> bool)
    requires TotalOrder(le) && Sorted(a, le) && Sorted(b, le) && multiset(a) == multiset(b) && a != []
    ensures b != [] && a[0] == b[0]
  {
    assert a[0] in multiset(b);
    assert b[0] in multiset(a);
    FirstAgrees(a, b, le);
  }

  lemma {:induction false} SortedUnique<T(!new)>(a: seq<T>, b: seq<T>, le: (T, T) -> bool)
    requires TotalOrder(le) && Sorted(a, le) && Sorted(b, le) && multiset(a) == multiset(b)
    ensures a == b
  {
    if a == [] {
      assert |b| == |multiset(b)| == 0;
    } else {
      SortedHeads(a, b, le);
      RestOf(a);
      RestOf(b);
      TailIsSorted(a, le);
      TailIsSorted(b, le);
      SortedUnique(a[1..], b[1..], le);
      SameParts(a, b);
    }
  }

  lemma SameParts<T>(a: seq<T>, b: seq<T>)
    requires a != [] && b != [] && a[0] == b[0] && a[1..] == b[1..]
    ensures a == b
  {
    assert a == [a[0]] + a[1..] && b == [b[0]] + b[1..];
  }

  lemma PartsOf<T>(front: seq<T>, x: T, back: seq<T>)
    ensures multiset(front + [x] + back) == multiset(front + back) + multiset{x}
  {
    assert multiset(front + [x] + back) == multiset(front) + multiset{x} + multiset(back);
    assert multiset(front + back) == multiset(front) + multiset(back);
  }

  lemma Without<T>(s: seq<T>, k: nat)
    requires k < |s|
    ensures multiset(s[..k] + s[k + 1..]) == multiset(s) - multiset{s[k]}
  {
    assert s == s[..k] + [s[k]] + s[k + 1..];
    PartsOf(s[..k], s[k], s[k + 1..]);
  }

  /** Finds the first element of a permutation in the other list. */
  lemma Extract<T>(a: seq<T>, b: seq<T>) returns (k: nat)
    requires a != [] && multiset(a) == multiset(b)
    ensures k < |b| && b[k] == a[0] && multiset(a[1..]) == multiset(b[..k] + b[k + 1..])
  {
    assert a[0] in multiset(b);
    k :| 0 <= k < |b| && b[k] == a[0];
    RestOf(a);
    Without(b, k);
  }

  // ------------------------------------------------------------ stable sort

  ghost predicate Mirrored<T>(cmp: (T, T) -> int, a: T, b: T) {
    (cmp(a, b) < 0 <==> cmp(b, a) > 0) && (cmp(a, b) > 0 <==> cmp(b, a) < 0)
  }

  ghost predicate Chained<T>(cmp: (T, T) -> int, a: T, b: T, c: T) {
    cmp(a, b) <= 0 && cmp(b, c) <= 0 ==>
      cmp(a, c) <= 0 && (cmp(a, c) == 0 ==> cmp(a, b) == 0 && cmp(b, c) == 0)
  }

  /** A comparator that is a total preorder. */
  ghost predicate Consistent<T(!new)>(cmp: (T, T) -> int) {
    (forall a, b :: Mirrored(cmp, a, b)) && (forall a, b, c :: Chained(cmp, a, b, c))
  }

  /** Smaller, or equal and of lower rank. */
  ghost predicate Before<T>(a: T, b: T, cmp: (T, T) -> int, rank: T -> int) {
    cmp(a, b) < 0 || (cmp(a, b) == 0 && rank(a) < rank(b))
  }

  /** Sorted by the comparator, ties by rank. */
  ghost predicate StablySorted<T>(s: seq<T>, cmp: (T, T) -> int, rank: T -> int) {
    forall i, j :: 0 <= i < j < |s| ==> Before(s[i], s[j], cmp, rank)
  }

  function StableSort<T>(s: seq<T>, cmp: (T, T) -> int): seq<T> {
    Sort(s, (a, b) => cmp(a, b) <= 0)
  }

  lemma InsertFirst<T(!new)>(x: T, s: seq<T>, cmp: (T, T) -> int, rank: T -> int)
    requires Consistent(cmp) && StablySorted(s, cmp, rank)
    requires forall i :: 0 <= i < |s| ==> rank(x) < rank(s[i])
    requires s != [] ==> cmp(x, s[0]) <= 0
    ensures StablySorted([x] + s, cmp, rank)
  {
    var r := [x] + s;
    forall j | 0 < j < |r| ensures Before(x, r[j], cmp, rank) {
      if j > 1 {
        assert Before(s[0], s[j - 1], cmp, rank);
        assert Chained(cmp, x, s[0], s[j - 1]);
      }
    }
    forall i, j | 0 < i < j < |r| ensures Before(r[i], r[j], cmp, rank) {
      assert Before(s[i - 1], s[j - 1], cmp, rank);
    }
  }

  lemma {:induction false} InsertStays<T(!new)>(x: T, s: seq<T>, cmp: (T, T) -> int, rank: T -> int)
    requires Consistent(cmp) && StablySorted(s, cmp, rank)
    requires forall i :: 0 <= i < |s| ==> rank(x) < rank(s[i])
    ensures StablySorted(Insert(x, s, (a, b) => cmp(a, b) <= 0), cmp, rank)
  {
    var le := (a, b) => cmp(a, b) <= 0;
    if s == [] || le(x, s[0]) {
      InsertFirst(x, s, cmp, rank);
    } else {
      var rest := Insert(x, s[1..], le);
      InsertStays(x, s[1..], cmp, rank);
      InsertPermutes(x, s[1..], le);
      SameElements(rest, s[1..] + [x]);
      forall i | 0 <= i < |rest| ensures Before(s[0], rest[i], cmp, rank) {
        if rest[i] == x {
          assert Mirrored(cmp, s[0], x);
        } else {
          var k :| 0 <= k < |s[1..]| && s[1..][k] == rest[i];
          assert Before(s[0], s[k + 1], cmp, rank);
        }
      }
      HeadFirst(s[0], rest, cmp, rank);
    }
  }

  lemma HeadFirst<T>(x: T, rest: seq<T>, cmp: (T, T) -> int, rank: T -> int)
    requires StablySorted(rest, cmp, rank) && forall i :: 0 <= i < |rest| ==> Before(x, rest[i], cmp, rank)
    ensures StablySorted([x] + rest, cmp, rank)
  {
    var r := [x] + rest;
    forall i, j | 0 <= i < j < |r| ensures Before(r[i], r[j], cmp, rank) {
      assert r[j] == rest[j - 1] && (i > 0 ==> r[i] == rest[i - 1]);
    }
  }

  /** Sorting a list given in rank order keeps ties in rank order. */
  lemma {:induction false} StableSortSorts<T(!new)>(s: seq<T>, cmp: (T, T) -> int, rank: T -> int)
    requires Consistent(cmp)
    requires forall i, j :: 0 <= i < j < |s| ==> rank(s[i]) < rank(s[j])
    ensures StablySorted(StableSort(s, cmp), cmp, rank)
    ensures multiset(StableSort(s, cmp)) == multiset(s)
  {
    var le := (a, b) => cmp(a, b) <= 0;
    SortPermutes(s, le);
    if s != [] {
      StableSortSorts(s[1..], cmp, rank);
      SameElements(Sort(s[1..], le), s[1..]);
      forall i | 0 <= i < |Sort(s[1..], le)| ensures rank(s[0]) < rank(Sort(s[1..], le)[i]) {
        var k :| 0 <= k < |s[1..]| && s[1..][k] == Sort(s[1..], le)[i];
        assert s[k + 1] == Sort(s[1..], le)[i];
      }
      InsertStays(s[0], Sort(s[1..], le), cmp, rank);
    }
  }

  lemma HeadsAgree<T(!new)>(a: seq<T>, b: seq<T>, cmp: (T, T) -> int, rank: T -> int)
    requires Consistent(cmp) && StablySorted(a, cmp, rank) && StablySorted(b, cmp, rank)
    requires multiset(a) == multiset(b) && a != [] && b != []
    ensures a[0] == b[0]
  {
    SameElements(a, b);
    SameElements(b, a);
    var i :| 0 <= i < |a| && a[i] == b[0];
    var j :| 0 <= j < |b| && b[j] == a[0];
    assert Mirrored(cmp, a[0], b[0]);
    assert i == 0 || Before(a[0], a[i], cmp, rank);
    assert j == 0 || Before(b[0], b[j], cmp, rank);
  }

  lemma TailSorted<T>(s: seq<T>, cmp: (T, T) -> int, rank: T -> int)
    requires StablySorted(s, cmp, rank) && s != []
    ensures StablySorted(s[1..], cmp, rank)
  {
    forall i, j | 0 <= i < j < |s[1..]| ensures Before(s[1..][i], s[1..][j], cmp, rank) {
      assert Before(s[i + 1], s[j + 1], cmp, rank);
    }
  }

  /** There is only one stable order of the same elements. */
  lemma {:induction false} StablySortedUnique<T(!new)>(a: seq<T>, b: seq<T>, cmp: (T, T) -> int, rank: T -> int)
    requires Consistent(cmp) && StablySorted(a, cmp, rank) && StablySorted(b, cmp, rank)
    requires multiset(a) == multiset(b)
    ensures a == b
    decreases |a|
  {
    assert |a| == |multiset(a)| == |multiset(b)| == |b|;
    if a != [] {
      HeadsAgree(a, b, cmp, rank);
      TailSorted(a, cmp, rank);
      TailSorted(b, cmp, rank);
      assert a == [a[0]] + a[1..] && b == [b[0]] + b[1..];
      assert multiset(a[1..]) == multiset(a) - multiset{a[0]};
      assert multiset(b[1..]) == multiset(b) - multiset{b[0]};
      StablySortedUnique(a[1..], b[1..], cmp, rank);
    }
  }
}
