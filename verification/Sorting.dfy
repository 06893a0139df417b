/** sort.Sort, by an integer rank. It is not stable, so callers may rely only on IsSortOf. */
module Sorting {

  predicate Ordered<T>(s: seq<T>, rank: T -> int) {
    forall i, j :: 0 <= i < j < |s| ==> rank(s[i]) <= rank(s[j])
  }

  ghost predicate IsSortOf<T>(sorted: seq<T>, s: seq<T>, rank: T -> int) {
    Ordered(sorted, rank) && multiset(sorted) == multiset(s)
  }

  lemma SameMembers<T>(a: seq<T>, b: seq<T>)
    requires multiset(a) == multiset(b)
    ensures |a| == |b| && forall x :: x in a <==> x in b
  {
    assert |multiset(a)| == |a| && |multiset(b)| == |b|;
    forall x ensures x in a <==> x in b {
      assert x in a <==> x in multiset(a);
    }
  }

  lemma InsertAfterHead<T>(x: T, s: seq<T>, rest: seq<T>, rank: T -> int)
    requires s != [] && Ordered(s, rank) && rank(s[0]) <= rank(x) && IsSortOf(rest, [x] + s[1..], rank)
    ensures IsSortOf([s[0]] + rest, [x] + s, rank)
  {
    SameMembers(rest, [x] + s[1..]);
    forall i | 0 <= i < |rest| ensures rank(s[0]) <= rank(rest[i]) {
      assert rest[i] in [x] + s[1..];
    }
    assert s == [s[0]] + s[1..];
    assert multiset([x] + s) == multiset{x} + multiset{s[0]} + multiset(s[1..]);
  }

  function Insert<T>(x: T, s: seq<T>, rank: T -> int): (r: seq<T>)
    requires Ordered(s, rank)
    ensures IsSortOf(r, [x] + s, rank)
  {
    if s == [] || rank(x) <= rank(s[0]) then [x] + s
    else
      var rest := Insert(x, s[1..], rank);
      InsertAfterHead(x, s, rest, rank);
      [s[0]] + rest
  }

  function InsertionSort<T>(s: seq<T>, rank: T -> int): (r: seq<T>)
    ensures IsSortOf(r, s, rank)
  {
    if s == [] then []
    else
      assert s == [s[0]] + s[1..];
      Insert(s[0], InsertionSort(s[1..], rank), rank)
  }

  /** In place, as sort.Sort works. */
  method Sort<T>(a: array<T>, rank: T -> int)
    modifies a
    ensures IsSortOf(a[..], old(a[..]), rank)
  {
    var sorted := InsertionSort(a[..], rank);
    SameMembers(sorted, a[..]);
    forall i | 0 <= i < a.Length {
      a[i] := sorted[i];
    }
    assert a[..] == sorted;
  }

  /** Elements of one rank are one and the same. */
  ghost predicate RanksDiffer<T>(s: seq<T>, rank: T -> int) {
    forall x, y :: x in s && y in s && x != y ==> rank(x) != rank(y)
  }

  lemma SameFirst<T>(a: seq<T>, b: seq<T>, rank: T -> int)
    requires Ordered(a, rank) && Ordered(b, rank) && multiset(a) == multiset(b) && RanksDiffer(a, rank) && a != []
    ensures b != [] && a[0] == b[0]
  {
    SameMembers(a, b);
    assert a[0] in b && b[0] in a;
    var i :| 0 <= i < |a| && a[i] == b[0];
    var j :| 0 <= j < |b| && b[j] == a[0];
    assert rank(a[0]) <= rank(a[i]) && rank(b[0]) <= rank(b[j]);
  }

  lemma WithoutMember<T>(s: seq<T>, k: nat)
    requires k < |s|
    ensures multiset(s[..k] + s[k + 1..]) == multiset(s) - multiset{s[k]}
  {
    assert s == s[..k] + [s[k]] + s[k + 1..];
  }

  /** Where the head of a is in a permutation of it, and what remains of both. */
  lemma FindHead<T>(a: seq<T>, b: seq<T>) returns (k: nat)
    requires multiset(a) == multiset(b) && a != []
    ensures k < |b| && b[k] == a[0] && multiset(a[1..]) == multiset(b[..k] + b[k + 1..])
  {
    SameMembers(a, b);
    assert a[0] in b;
    k :| k < |b| && b[k] == a[0];
    WithoutMember(b, k);
    assert a[..0] + a[1..] == a[1..];
    WithoutMember(a, 0);
  }

  lemma SameRest<T>(x: T, a: seq<T>, b: seq<T>)
    requires multiset([x] + a) == multiset([x] + b)
    ensures multiset(a) == multiset(b)
  {
    assert multiset(a) == multiset([x] + a) - multiset{x};
    assert multiset(b) == multiset([x] + b) - multiset{x};
  }

  /** Then only one order is sorted. */
  lemma {:induction false} SortIsUnique<T>(a: seq<T>, b: seq<T>, rank: T -> int)
    requires Ordered(a, rank) && Ordered(b, rank) && multiset(a) == multiset(b) && RanksDiffer(a, rank)
    ensures a == b
    decreases |a|
  {
    if a == [] {
      SameMembers(a, b);
    } else {
      SameFirst(a, b, rank);
      assert a == [a[0]] + a[1..] && b == [a[0]] + b[1..];
      SameRest(a[0], a[1..], b[1..]);
      assert forall x :: x in a[1..] ==> x in a;
      SortIsUnique(a[1..], b[1..], rank);
    }
  }

  function Image<T, U>(s: seq<T>, f: T -> U): (r: seq<U>)
    ensures |r| == |s| && forall i :: 0 <= i < |s| ==> r[i] == f(s[i])
  {
    seq(|s|, i requires 0 <= i < |s| => f(s[i]))
  }

  /** Permutations have images that are permutations. */
  lemma {:induction false} ImagesPermuted<T, U>(a: seq<T>, b: seq<T>, f: T -> U)
    requires multiset(a) == multiset(b)
    ensures multiset(Image(a, f)) == multiset(Image(b, f))
    decreases |a|
  {
    if a == [] {
      SameMembers(a, b);
    } else {
      var k := FindHead(a, b);
      var rest := b[..k] + b[k + 1..];
      ImagesPermuted(a[1..], rest, f);
      assert Image(a, f) == [f(a[0])] + Image(a[1..], f);
      assert Image(b, f)[..k] + Image(b, f)[k + 1..] == Image(rest, f);
      WithoutMember(Image(b, f), k);
    }
  }

  /** Two sorts of one list look the same through any view that ties cannot be told apart by. */
  lemma {:induction false} SortsLookAlike<T, U>(all: seq<T>, s: seq<T>, t: seq<T>, rank: T -> int, f: T -> U, viewRank: U -> int)
    requires IsSortOf(s, all, rank) && IsSortOf(t, all, rank)
    requires forall x :: x in all ==> viewRank(f(x)) == rank(x)
    requires forall x, y :: x in all && y in all && rank(x) == rank(y) ==> f(x) == f(y)
    ensures |s| == |t| && Image(s, f) == Image(t, f)
  {
    var vs, vt := Image(s, f), Image(t, f);
    SameMembers(s, all);
    SameMembers(t, all);
    ImagesPermuted(s, t, f);
    forall i | 0 <= i < |s| ensures s[i] in all && viewRank(vs[i]) == rank(s[i]) {}
    forall i | 0 <= i < |t| ensures t[i] in all && viewRank(vt[i]) == rank(t[i]) {}
    forall x, y | x in vs && y in vs && x != y ensures viewRank(x) != viewRank(y) {
      var i :| 0 <= i < |s| && vs[i] == x;
      var j :| 0 <= j < |s| && vs[j] == y;
      assert s[i] in all && s[j] in all;
    }
    SortIsUnique(vs, vt, viewRank);
  }

  lemma {:induction false} PartsSwapped<T>(a: seq<T>, b: seq<T>)
    ensures multiset(a + b) == multiset(b + a)
  {
  }

  lemma {:induction false} ThreePermuted<T>(x: T, y: T, z: T)
    ensures multiset([x] + [y, z]) == multiset([y, z] + [x]) == multiset([x] + [z, y])
  {
    PartsSwapped([x], [y, z]);
    PartsSwapped([y], [z]);
    assert [y] + [z] == [y, z] && [z] + [y] == [z, y];
    assert multiset([x] + [y, z]) == multiset([x]) + multiset([y, z]);
    assert multiset([x] + [z, y]) == multiset([x]) + multiset([z, y]);
  }

  /** Three elements in order of rank, the last two in either order. */
  lemma {:induction false} ThreeSorted<T>(x: T, y: T, z: T, rank: T -> int)
    requires rank(x) <= rank(y) <= rank(z)
    ensures IsSortOf([x] + [y, z], [y, z] + [x], rank)
    ensures rank(y) == rank(z) ==> IsSortOf([x] + [z, y], [y, z] + [x], rank)
  {
    ThreePermuted(x, y, z);
  }
}
