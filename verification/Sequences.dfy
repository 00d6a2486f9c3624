/** Facts about finite sequences that several components share. */
module Sequences {

  ghost predicate NoDuplicates<T>(s: seq<T>) {
    forall i, j :: 0 <= i < j < |s| ==> s[i] != s[j]
  }

  /** s lists every element of xs exactly once: one order in which Go may range over a map. */
  ghost predicate Enumerates<T>(s: seq<T>, xs: set<T>) {
    NoDuplicates(s) && Elements(s) == xs
  }

  /** One more element visited. */
  lemma EnumeratesNext<T>(s: seq<T>, xs: set<T>, x: T)
    requires Enumerates(s, xs) && x !in xs
    ensures Enumerates(s + [x], xs + {x})
  {
    forall i | 0 <= i < |s| ensures s[i] != x {
      assert s[i] in Elements(s);
    }
    assert Elements(s + [x]) == Elements(s) + {x};
  }

  lemma SomeOrder<T>(xs: set<T>) returns (order: seq<T>)
    ensures Enumerates(order, xs)
  {
    order := [];
    var todo := xs;
    while todo != {}
      invariant todo <= xs && Enumerates(order, xs - todo)
      decreases todo
    {
      var x :| x in todo;
      EnumeratesNext(order, xs - todo, x);
      assert xs - (todo - {x}) == (xs - todo) + {x};
      order, todo := order + [x], todo - {x};
    }
    assert xs - todo == xs;
  }

  ghost function Sum<T>(s: seq<T>, f: T -> int): int {
    if s == [] then 0 else f(s[0]) + Sum(s[1..], f)
  }

  lemma {:induction false} SumConcat<T>(a: seq<T>, b: seq<T>, f: T -> int)
    ensures Sum(a + b, f) == Sum(a, f) + Sum(b, f)
  {
    if a == [] {
      assert a + b == b;
    } else {
      assert (a + b)[1..] == a[1..] + b;
      SumConcat(a[1..], b, f);
    }
  }

  /** The element at k moved out of a sequence. */
  lemma MultisetWithout<T>(s: seq<T>, k: nat)
    requires k < |s|
    ensures multiset(s[..k] + s[k + 1..]) == multiset(s) - multiset{s[k]}
  {
    assert s == s[..k] + [s[k]] + s[k + 1..];
  }

  lemma MultisetTail<T>(s: seq<T>)
    requires s != []
    ensures multiset(s[1..]) == multiset(s) - multiset{s[0]}
  {
    assert s == [s[0]] + s[1..];
  }

  /** A permutation holds the head of the other list, and without it is a permutation of the tail. */
  lemma TakeHead<T>(a: seq<T>, b: seq<T>) returns (k: nat)
    requires a != [] && multiset(a) == multiset(b)
    ensures k < |b| && b[k] == a[0] && multiset(a[1..]) == multiset(b[..k] + b[k + 1..])
  {
    assert a[0] in multiset(b);
    k :| 0 <= k < |b| && b[k] == a[0];
    MultisetTail(a);
    MultisetWithout(b, k);
  }

  lemma DropEqualHeads<T>(a: seq<T>, b: seq<T>)
    requires a != [] && b != [] && a[0] == b[0] && multiset(a) == multiset(b)
    ensures multiset(a[1..]) == multiset(b[1..])
  {
    MultisetTail(a);
    MultisetTail(b);
  }

  lemma SameHeadAndTail<T>(a: seq<T>, b: seq<T>)
    requires a != [] && b != [] && a[0] == b[0] && a[1..] == b[1..]
    ensures a == b
  {
    assert a == [a[0]] + a[1..] && b == [b[0]] + b[1..];
  }

  lemma EmptyPermutation<T>(a: seq<T>, b: seq<T>)
    requires a == [] && multiset(a) == multiset(b)
    ensures b == []
  {
    assert |b| == |multiset(b)|;
  }

  /** A sum does not depend on the order of its terms. */
  lemma {:induction false} SumPermutation<T>(a: seq<T>, b: seq<T>, f: T -> int)
    requires multiset(a) == multiset(b)
    ensures Sum(a, f) == Sum(b, f)
    decreases |a|
  {
    if a == [] {
      EmptyPermutation(a, b);
    } else {
      var k := TakeHead(a, b);
      SumPermutation(a[1..], b[..k] + b[k + 1..], f);
      SumWithout(b, k, f);
    }
  }

  lemma SumWithout<T>(s: seq<T>, k: nat, f: T -> int)
    requires k < |s|
    ensures Sum(s, f) == f(s[k]) + Sum(s[..k] + s[k + 1..], f)
  {
    assert s == s[..k] + s[k..];
    SumConcat(s[..k], s[k..], f);
    SumConcat(s[..k], s[k + 1..], f);
    assert s[k..][1..] == s[k + 1..];
  }

  ghost function Elements<T>(s: seq<T>): set<T> {
    set x | x in s
  }

  lemma {:induction false} NoDuplicatesSize<T>(s: seq<T>)
    requires NoDuplicates(s)
    ensures |Elements(s)| == |s|
  {
    if s == [] {
      assert Elements(s) == {};
    } else {
      NoDuplicatesSize(s[1..]);
      assert Elements(s) == {s[0]} + Elements(s[1..]);
      assert s[0] !in Elements(s[1..]);
    }
  }

  lemma SubsetSize<T>(a: set<T>, b: set<T>)
    requires a <= b
    ensures |a| <= |b|
  {
    assert b == a + (b - a);
  }

  ghost function Map<T, R>(s: seq<T>, f: T -> R): (m: seq<R>)
    ensures |m| == |s|
  {
    seq(|s|, i requires 0 <= i < |s| => f(s[i]))
  }

  lemma MapConcat<T, R>(a: seq<T>, b: seq<T>, f: T -> R)
    ensures Map(a + b, f) == Map(a, f) + Map(b, f)
  {
  }

  /** Mapping keeps permutations. */
  lemma {:induction false} MapPermutation<T, R>(a: seq<T>, b: seq<T>, f: T -> R)
    requires multiset(a) == multiset(b)
    ensures multiset(Map(a, f)) == multiset(Map(b, f))
    decreases |a|
  {
    if a == [] {
      EmptyPermutation(a, b);
    } else {
      var k := TakeHead(a, b);
      MapPermutation(a[1..], b[..k] + b[k + 1..], f);
      MapWithout(a, 0, f);
      assert a[..0] + a[1..] == a[1..];
      MapWithout(b, k, f);
    }
  }

  lemma MapWithout<T, R>(s: seq<T>, k: nat, f: T -> R)
    requires k < |s|
    ensures multiset(Map(s, f)) == multiset(Map(s[..k] + s[k + 1..], f)) + multiset{f(s[k])}
  {
    MapConcat(s[..k], s[k + 1..], f);
    var m := Map(s, f);
    assert m == Map(s[..k], f) + [f(s[k])] + Map(s[k + 1..], f);
  }

  lemma {:induction false} NoDuplicatesMultiset<T>(s: seq<T>, x: T)
    requires NoDuplicates(s)
    ensures multiset(s)[x] == if x in s then 1 else 0
  {
    if s != [] {
      assert s == [s[0]] + s[1..];
      NoDuplicatesMultiset(s[1..], x);
    }
  }

  /** Two listings of one set are permutations of each other. */
  lemma SameListing<T>(a: seq<T>, b: seq<T>)
    requires NoDuplicates(a) && NoDuplicates(b) && Elements(a) == Elements(b)
    ensures multiset(a) == multiset(b)
  {
    forall x ensures multiset(a)[x] == multiset(b)[x] {
      NoDuplicatesMultiset(a, x);
      NoDuplicatesMultiset(b, x);
      assert x in Elements(a) <==> x in Elements(b);
    }
  }
}
