/** Byte-wise string order, the stable sort that the listing code relies on, and the elements of sequences. */
module Order {

  function Max(a: int, b: int): int {
    if a > b then a else b
  }

  /** Lexicographic order on strings, as the comparison operators of the source use it. */
  predicate Leq(a: string, b: string) {
    if a == [] then true
    else if b == [] then false
    else a[0] < b[0] || (a[0] == b[0] && Leq(a[1..], b[1..]))
  }

  predicate Less(a: string, b: string) {
    Leq(a, b) && a != b
  }

  /** a comes before b exactly if it is a beginning of b or has the lower character where they first differ. */
  lemma {:induction false} LeqIff(a: string, b: string)
    ensures Leq(a, b) <==> a <= b || exists i :: LowerAt(a, b, i)
  {
    if a != [] && b != [] {
      if a[0] == b[0] {
        LeqIff(a[1..], b[1..]);
        BeginningTail(a, b);
        if i :| LowerAt(a[1..], b[1..], i) {
          assert a[..i + 1] == [a[0]] + a[1..][..i] && b[..i + 1] == [b[0]] + b[1..][..i];
          assert LowerAt(a, b, i + 1);
        }
        if i :| LowerAt(a, b, i) {
          assert i > 0;
          assert a[1..][..i - 1] == a[..i][1..] && b[1..][..i - 1] == b[..i][1..];
          assert LowerAt(a[1..], b[1..], i - 1);
        }
      } else {
        assert a[0] < b[0] ==> LowerAt(a, b, 0);
        if i :| LowerAt(a, b, i) {
          SameHead(a, b, i);
        }
      }
    }
  }

  ghost predicate LowerAt(a: string, b: string, i: int) {
    0 <= i < |a| && i < |b| && a[..i] == b[..i] && a[i] < b[i]
  }

  lemma SameHead(a: string, b: string, i: nat)
    requires i < |a| && i < |b| && a[..i] == b[..i]
    ensures i > 0 ==> a[0] == b[0]
  {
    assert i > 0 ==> a[..i][0] == a[0] && b[..i][0] == b[0];
  }

  lemma BeginningTail(a: string, b: string)
    requires a != [] && b != [] && a[0] == b[0]
    ensures a <= b <==> a[1..] <= b[1..]
  {
    if a[1..] <= b[1..] {
      assert a == [a[0]] + a[1..] && b == [b[0]] + b[1..];
      assert b[..|a|] == [b[0]] + b[1..][..|a| - 1];
    }
    if a <= b {
      assert b[1..][..|a| - 1] == b[..|a|][1..];
    }
  }

  lemma LeqTotal(a: string, b: string)
    ensures Leq(a, b) || Leq(b, a)
  {
  }

  lemma LeqReflexive(a: string)
    ensures Leq(a, a)
  {
  }

  lemma LeqAntisymmetric(a: string, b: string)
    requires Leq(a, b) && Leq(b, a)
    ensures a == b
  {
    if a != [] {
      LeqAntisymmetric(a[1..], b[1..]);
      assert a == [a[0]] + a[1..] && b == [b[0]] + b[1..];
    }
  }

  lemma LeqTransitive(a: string, b: string, c: string)
    requires Leq(a, b) && Leq(b, c)
    ensures Leq(a, c)
  {
    if a != [] && a[0] == b[0] == c[0] {
      LeqTransitive(a[1..], b[1..], c[1..]);
    }
  }

  ghost predicate Total<T(!new)>(leq: (T, T) -> bool) {
    forall a, b :: leq(a, b) || leq(b, a)
  }

  ghost predicate Transitive<T(!new)>(leq: (T, T) -> bool) {
    forall a, b, c :: leq(a, b) && leq(b, c) ==> leq(a, c)
  }

  ghost predicate SortedBy<T(!new)>(s: seq<T>, leq: (T, T) -> bool) {
    forall i, j :: 0 <= i < j < |s| ==> leq(s[i], s[j])
  }

  /** Places x before the first element it does not exceed. */
  function Insert<T>(x: T, s: seq<T>, leq: (T, T) -> bool): (r: seq<T>)
    ensures multiset(r) == multiset{x} + multiset(s)
    ensures |r| == |s| + 1
  {
    if s == [] then [x]
    else if leq(x, s[0]) then [x] + s
    else
      assert s == [s[0]] + s[1..];
      [s[0]] + Insert(x, s[1..], leq)
  }

  /** Stable insertion sort: among equal elements the earlier one stays first. */
  function SortBy<T>(s: seq<T>, leq: (T, T) -> bool): (r: seq<T>)
    ensures multiset(r) == multiset(s)
    ensures |r| == |s|
  {
    if s == [] then []
    else
      assert s == [s[0]] + s[1..];
      Insert(s[0], SortBy(s[1..], leq), leq)
  }

  lemma MultisetMembers<T>(a: seq<T>, b: seq<T>)
    requires multiset(a) == multiset(b)
    ensures forall x :: x in a <==> x in b
  {
    forall x
      ensures x in a <==> x in b
    {
      assert x in a <==> x in multiset(a);
      assert x in b <==> x in multiset(b);
    }
  }

  lemma InsertMembers<T>(x: T, s: seq<T>, leq: (T, T) -> bool)
    ensures forall y :: y in Insert(x, s, leq) <==> y == x || y in s
  {
    var r := Insert(x, s, leq);
    forall y
      ensures y in r <==> y == x || y in s
    {
      assert y in r <==> y in multiset(r);
      assert y in s <==> y in multiset(s);
    }
  }

  /** The lexicographic combination: first by leq2, ties by leq1. */
  ghost predicate LexLeq<T(!new)>(leq2: (T, T) -> bool, leq1: (T, T) -> bool, a: T, b: T) {
    leq2(a, b) && (leq2(b, a) ==> leq1(a, b))
  }

  ghost predicate LexSorted<T(!new)>(s: seq<T>, leq2: (T, T) -> bool, leq1: (T, T) -> bool) {
    forall i, j :: 0 <= i < j < |s| ==> LexLeq(leq2, leq1, s[i], s[j])
  }

  lemma {:induction false} InsertKeepsLex<T(!new)>(x: T, s: seq<T>, leq2: (T, T) -> bool, leq1: (T, T) -> bool)
    requires Total(leq2) && Transitive(leq2)
    requires LexSorted(s, leq2, leq1)
    requires forall y :: y in s ==> leq1(x, y)
    ensures LexSorted(Insert(x, s, leq2), leq2, leq1)
  {
    if s == [] {
    } else if leq2(x, s[0]) {
      forall y | y in s
        ensures LexLeq(leq2, leq1, x, y)
      {
        var k :| 0 <= k < |s| && s[k] == y;
        assert k == 0 || LexLeq(leq2, leq1, s[0], s[k]);
      }
      ConsKeepsLex(x, s, leq2, leq1);
    } else {
      InsertKeepsLex(x, s[1..], leq2, leq1);
      InsertMembers(x, s[1..], leq2);
      forall y | y in Insert(x, s[1..], leq2)
        ensures LexLeq(leq2, leq1, s[0], y)
      {
        if y != x {
          var k :| 0 <= k < |s[1..]| && s[1..][k] == y;
          assert y == s[k + 1];
        }
      }
      ConsKeepsLex(s[0], Insert(x, s[1..], leq2), leq2, leq1);
    }
  }

  lemma ConsKeepsLex<T(!new)>(x: T, s: seq<T>, leq2: (T, T) -> bool, leq1: (T, T) -> bool)
    requires LexSorted(s, leq2, leq1) && forall y :: y in s ==> LexLeq(leq2, leq1, x, y)
    ensures LexSorted([x] + s, leq2, leq1)
  {
    hide LexLeq;
    var r := [x] + s;
    forall i, j | 0 <= i < j < |r|
      ensures LexLeq(leq2, leq1, r[i], r[j])
    {
      assert r[j] == s[j - 1];
      if i > 0 {
        assert r[i] == s[i - 1];
      }
    }
  }

  /** A stable sort by leq2 of a list already in leq1 order is in the lexicographic order of the two. */
  lemma {:induction false} StableSortComposes<T(!new)>(s: seq<T>, leq2: (T, T) -> bool, leq1: (T, T) -> bool)
    requires Total(leq2) && Transitive(leq2)
    requires SortedBy(s, leq1)
    ensures LexSorted(SortBy(s, leq2), leq2, leq1)
  {
    if s != [] {
      StableSortComposes(s[1..], leq2, leq1);
      MultisetMembers(s[1..], SortBy(s[1..], leq2));
      forall y | y in SortBy(s[1..], leq2)
        ensures leq1(s[0], y)
      {
        var k :| 0 <= k < |s[1..]| && s[1..][k] == y;
        assert y == s[k + 1];
      }
      InsertKeepsLex(s[0], SortBy(s[1..], leq2), leq2, leq1);
    }
  }

  lemma SortBySorts<T(!new)>(s: seq<T>, leq: (T, T) -> bool)
    requires Total(leq) && Transitive(leq)
    ensures SortedBy(SortBy(s, leq), leq)
  {
    var any := (a: T, b: T) => true;
    StableSortComposes(s, leq, any);
    var r := SortBy(s, leq);
    forall i, j | 0 <= i < j < |r|
      ensures leq(r[i], r[j])
    {
      assert LexLeq(leq, any, r[i], r[j]);
    }
  }

  /** Sorting a sorted list changes nothing. */
  lemma {:induction false} SortByIdentity<T(!new)>(s: seq<T>, leq: (T, T) -> bool)
    requires SortedBy(s, leq)
    ensures SortBy(s, leq) == s
  {
    if s != [] {
      assert SortedBy(s[1..], leq);
      SortByIdentity(s[1..], leq);
      assert s == [s[0]] + s[1..];
      if |s| > 1 {
        assert leq(s[0], s[1]);
      }
    }
  }

  predicate StrictlySorted(s: seq<string>) {
    forall i, j :: 0 <= i < j < |s| ==> Less(s[i], s[j])
  }

  function Elems<T>(s: seq<T>): (r: set<T>) {
    set x | x in s
  }

  predicate Distinct<T(==)>(s: seq<T>) {
    forall i, j :: 0 <= i < j < |s| ==> s[i] != s[j]
  }

  lemma LeqOrder()
    ensures Total(Leq) && Transitive(Leq)
  {
    forall a, b
      ensures Leq(a, b) || Leq(b, a)
    {
      LeqTotal(a, b);
    }
    forall a, b, c | Leq(a, b) && Leq(b, c)
      ensures Leq(a, c)
    {
      LeqTransitive(a, b, c);
    }
  }

  /** A list of distinct elements has a permutation of distinct elements. */
  lemma DistinctPermutation<T>(a: seq<T>, b: seq<T>)
    requires Distinct(a) && multiset(a) == multiset(b)
    ensures Distinct(b)
  {
    forall i, j | 0 <= i < j < |b|
      ensures b[i] != b[j]
    {
      if b[i] == b[j] {
        var x := b[i];
        assert b == b[..j] + [b[j]] + b[j + 1..];
        assert x == b[..j][i];
        assert x in multiset(b[..j]);
        assert multiset(b)[x] >= 2;
        DistinctCount(a, x);
        assert false;
      }
    }
  }

  lemma DistinctCount<T>(a: seq<T>, x: T)
    requires Distinct(a)
    ensures multiset(a)[x] <= 1
  {
    if a != [] {
      assert a == [a[0]] + a[1..];
      DistinctCount(a[1..], x);
      if x == a[0] {
        assert x !in a[1..];
      }
    }
  }

  /** sort.Strings on a list without repetitions. */
  lemma SortDistinct(s: seq<string>)
    requires Distinct(s)
    ensures StrictlySorted(SortBy(s, Leq)) && Elems(SortBy(s, Leq)) == Elems(s)
  {
    LeqOrder();
    SortBySorts(s, Leq);
    DistinctPermutation(s, SortBy(s, Leq));
    MultisetMembers(s, SortBy(s, Leq));
  }

  lemma NoneLeft(rest: set<int>)
    ensures (forall id: int :: id !in rest) ==> rest == {}
  {
    if forall id: int :: id !in rest {
      assert rest == {};
    }
  }

  /** The key a map iteration hands over next: any one of those left. */
  method AnyOf(rest: set<int>) returns (id: int)
    requires rest != {}
    ensures id in rest
  {
    NoneLeft(rest);
    id :| id in rest;
  }

  /** Collects the keys of a map, in whatever order the map hands them over, and sorts them. */
  method SortedKeys(keys: set<string>) returns (r: seq<string>)
    ensures StrictlySorted(r) && Elems(r) == keys
  {
    var rest := keys;
    r := [];
    while rest != {}
      invariant Distinct(r) && Elems(r) !! rest && Elems(r) + rest == keys
      decreases rest
    {
      var k :| k in rest;
      assert k !in Elems(r);
      assert Elems(r + [k]) == Elems(r) + {k};
      r, rest := r + [k], rest - {k};
    }
    SortDistinct(r);
    r := SortBy(r, Leq);
  }

  lemma {:induction false} ElemsSize<T>(s: seq<T>)
    requires Distinct(s)
    ensures |Elems(s)| == |s|
  {
    if s != [] {
      ElemsSize(s[1..]);
      assert Elems(s) == Elems(s[1..]) + {s[0]};
      assert s[0] !in Elems(s[1..]);
    }
  }

  lemma ElemsAppend<T>(s: seq<T>, x: T)
    ensures Elems(s + [x]) == Elems(s) + {x}
  {
    assert forall y :: y in s + [x] <==> y in s || y == x;
  }

  lemma ElemsAt<T>(s: seq<T>, i: nat)
    requires i < |s|
    ensures s[i] in Elems(s)
  {
  }

  lemma ElemsIndex<T>(s: seq<T>, x: T) returns (i: nat)
    requires x in Elems(s)
    ensures i < |s| && s[i] == x
  {
    i :| 0 <= i < |s| && s[i] == x;
  }

  lemma ElemsEmpty<T>(s: seq<T>)
    ensures Elems(s) == {} <==> s == []
  {
    if s != [] {
      assert s[0] in Elems(s);
    }
  }

  /** Two strictly sorted listings of one set are the same listing. */
  lemma {:induction false} StrictlySortedUnique(a: seq<string>, b: seq<string>)
    requires StrictlySorted(a) && StrictlySorted(b) && Elems(a) == Elems(b)
    ensures a == b
  {
    if a == [] {
      ElemsEmpty(b);
    } else {
      assert a[0] in Elems(a);
      ElemsEmpty(b);
      assert a[0] in Elems(b);
      var i :| 0 <= i < |b| && b[i] == a[0];
      assert b[0] in Elems(a);
      var j :| 0 <= j < |a| && a[j] == b[0];
      assert a[0] == b[0] by {
        if i > 0 && j > 0 {
          LeqAntisymmetric(a[0], b[0]);
        }
      }
      TailElems(a);
      TailElems(b);
      StrictlySortedUnique(a[1..], b[1..]);
      assert a == [a[0]] + a[1..] && b == [b[0]] + b[1..];
    }
  }

  lemma TailElems(a: seq<string>)
    requires StrictlySorted(a) && a != []
    ensures StrictlySorted(a[1..]) && Elems(a[1..]) == Elems(a) - {a[0]}
  {
    forall x
      ensures x in Elems(a[1..]) <==> x in Elems(a) - {a[0]}
    {
      if x in Elems(a) - {a[0]} {
        var k :| 0 <= k < |a| && a[k] == x;
        assert a[1..][k - 1] == x;
      }
      if x in Elems(a[1..]) {
        var k :| 0 <= k < |a[1..]| && a[1..][k] == x;
        assert a[k + 1] == x && Less(a[0], a[k + 1]);
      }
    }
  }
}
