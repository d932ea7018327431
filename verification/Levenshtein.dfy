/** Edit distance: the recurrence, the two-row loop that computes it, and what it means. */
module Levenshtein {

  function Min(a: int, b: int): int {
    if a < b then a else b
  }

  /** The recurrence on prefixes, dropping last characters. */
  function Distance(a: string, b: string): (d: nat)
    decreases |a| + |b|
  {
    if a == [] then |b|
    else if b == [] then |a|
    else
      var a', b' := a[..|a| - 1], b[..|b| - 1];
      var cost := if a[|a| - 1] == b[|b| - 1] then 0 else 1;
      Min(Min(Distance(a, b') + 1, Distance(a', b) + 1), Distance(a', b') + cost)
  }

  /** The recurrence for non-empty strings. */
  lemma Cell(a: string, b: string)
    requires a != [] && b != []
    ensures var a', b' := a[..|a| - 1], b[..|b| - 1];
            Distance(a, b) == Min(Min(Distance(a, b') + 1, Distance(a', b) + 1),
                                  Distance(a', b') + if a[|a| - 1] == b[|b| - 1] then 0 else 1)
  {
  }

  lemma Border(a: string)
    ensures Distance(a, []) == Distance([], a) == |a|
  {
  }

  lemma CellOfPrefixes(a: string, b: string, i: nat, j: nat)
    requires 1 <= i <= |a| && 1 <= j <= |b|
    ensures Distance(a[..i], b[..j]) ==
            Min(Min(Distance(a[..i], b[..j - 1]) + 1, Distance(a[..i - 1], b[..j]) + 1),
                Distance(a[..i - 1], b[..j - 1]) + if a[i - 1] == b[j - 1] then 0 else 1)
  {
    hide Distance;
    Cell(a[..i], b[..j]);
    assert a[..i][..i - 1] == a[..i - 1] && b[..j][..j - 1] == b[..j - 1];
  }

  /** The loop of the source: two rows, swapped after each character of a. */
  method LevenshteinDistance(a: string, b: string) returns (d: int)
    ensures d == Distance(a, b)
  {
    hide Distance;
    var prev := new int[|b| + 1];
    var curr := new int[|b| + 1];
    for j := 0 to prev.Length
      invariant forall k :: 0 <= k < j ==> prev[k] == Distance(a[..0], b[..k])
    {
      Border(b[..j]);
      prev[j] := j;
    }
    for i := 1 to |a| + 1
      invariant fresh(prev) && fresh(curr) && prev != curr && prev.Length == curr.Length == |b| + 1
      invariant forall k :: 0 <= k <= |b| ==> prev[k] == Distance(a[..i - 1], b[..k])
    {
      Border(a[..i]);
      curr[0] := i;
      for j := 1 to |b| + 1
        invariant forall k :: 0 <= k <= |b| ==> prev[k] == Distance(a[..i - 1], b[..k])
        invariant forall k :: 0 <= k < j ==> curr[k] == Distance(a[..i], b[..k])
      {
        var cost := 1;
        if a[i - 1] == b[j - 1] {
          cost := 0;
        }
        CellOfPrefixes(a, b, i, j);
        curr[j] := Min(Min(curr[j - 1] + 1, prev[j] + 1), prev[j - 1] + cost);
      }
      prev, curr := curr, prev;
    }
    assert a[..|a|] == a && b[..|b|] == b;
    d := prev[|b|];
  }

  lemma Bounds(a: string, b: string)
    ensures Distance(a, b) <= |a| + |b|
    ensures |a| - |b| <= Distance(a, b) && |b| - |a| <= Distance(a, b)
    decreases |a| + |b|
  {
    if a != [] && b != [] {
      Bounds(a, b[..|b| - 1]);
      Bounds(a[..|a| - 1], b);
      Bounds(a[..|a| - 1], b[..|b| - 1]);
    }
  }

  lemma {:induction false} Symmetric(a: string, b: string)
    ensures Distance(a, b) == Distance(b, a)
    decreases |a| + |b|
  {
    if a != [] && b != [] {
      Symmetric(a, b[..|b| - 1]);
      Symmetric(a[..|a| - 1], b);
      Symmetric(a[..|a| - 1], b[..|b| - 1]);
    }
  }

  lemma {:induction false} ZeroIffEqual(a: string, b: string)
    ensures Distance(a, b) == 0 <==> a == b
    decreases |a| + |b|
  {
    if a != [] && b != [] {
      var a', b' := a[..|a| - 1], b[..|b| - 1];
      ZeroIffEqual(a', b');
      assert a == a' + [a[|a| - 1]] && b == b' + [b[|b| - 1]];
    }
  }

  /** One step of the recurrence bounds the distance from above. */
  lemma StepBounds(a: string, b: string)
    ensures a != [] ==> Distance(a, b) <= Distance(a[..|a| - 1], b) + 1
    ensures b != [] ==> Distance(a, b) <= Distance(a, b[..|b| - 1]) + 1
  {
    Bounds(a, b);
    if a != [] {
      Bounds(a[..|a| - 1], b);
    }
    if b != [] {
      Bounds(a, b[..|b| - 1]);
    }
  }

  lemma {:induction false} Triangle(a: string, b: string, c: string)
    ensures Distance(a, c) <= Distance(a, b) + Distance(b, c)
    decreases |a| + |b| + |c|
  {
    Bounds(a, b);
    Bounds(b, c);
    Bounds(a, c);
    if a != [] && b != [] && c != [] {
      var a', b', c' := a[..|a| - 1], b[..|b| - 1], c[..|c| - 1];
      StepBounds(a, c);
      Triangle(a', b, c);
      Triangle(a, b, c');
      Triangle(a, b', c);
      Triangle(a, b', c');
      Triangle(a', b', c);
      Triangle(a', b', c');
    }
  }

  /** b arises from a by inserting, deleting or replacing one character. */
  ghost predicate OneEdit(a: string, b: string) {
    exists p: string, x: string, y: string, q: string :: EditAt(a, b, p, x, y, q)
  }

  ghost predicate EditAt(a: string, b: string, p: string, x: string, y: string, q: string) {
    |x| <= 1 && |y| <= 1 && a == p + x + q && b == p + y + q
  }

  /** b arises from a by at most k such edits. */
  ghost predicate Edits(a: string, b: string, k: nat)
    decreases k
  {
    if k == 0 then a == b
    else exists m :: OneEdit(a, m) && Edits(m, b, k - 1)
  }

  lemma {:induction false} CommonSuffix(a: string, b: string, q: string)
    ensures Distance(a + q, b + q) <= Distance(a, b)
    decreases |q|
  {
    if q == [] {
      assert a + q == a && b + q == b;
    } else {
      var q' := q[..|q| - 1];
      CommonSuffix(a, b, q');
      assert (a + q)[..|a + q| - 1] == a + q' && (b + q)[..|b + q| - 1] == b + q';
    }
  }

  lemma NearLast(p: string, x: string, y: string)
    requires |x| <= 1 && |y| <= 1
    ensures Distance(p + x, p + y) <= 1
  {
    hide Distance;
    ZeroIffEqual(p, p);
    if x == [] && y == [] {
      ZeroIffEqual(p + x, p + y);
    } else if x == [] || y == [] {
      assert x == [] ==> p + x == p && (p + y)[..|p + y| - 1] == p;
      assert y == [] ==> p + y == p && (p + x)[..|p + x| - 1] == p;
      StepBounds(p + x, p + y);
    } else {
      Cell(p + x, p + y);
      assert (p + x)[..|p + x| - 1] == p && (p + y)[..|p + y| - 1] == p;
    }
  }

  lemma OneEditIsNear(a: string, b: string)
    requires OneEdit(a, b)
    ensures Distance(a, b) <= 1
  {
    var p, x, y, q :| EditAt(a, b, p, x, y, q);
    NearLast(p, x, y);
    CommonSuffix(p + x, p + y, q);
  }

  lemma {:induction false} EditsBound(a: string, b: string, k: nat)
    requires Edits(a, b, k)
    ensures Distance(a, b) <= k
    decreases k
  {
    if k == 0 {
      ZeroIffEqual(a, b);
    } else {
      var m :| OneEdit(a, m) && Edits(m, b, k - 1);
      OneEditIsNear(a, m);
      EditsBound(m, b, k - 1);
      Triangle(a, m, b);
    }
  }

  lemma {:induction false} EditsAppend(a: string, b: string, k: nat, q: string)
    requires Edits(a, b, k)
    ensures Edits(a + q, b + q, k)
    decreases k
  {
    if k > 0 {
      var m :| OneEdit(a, m) && Edits(m, b, k - 1);
      var p, x, y, r :| EditAt(a, m, p, x, y, r);
      assert EditAt(a + q, m + q, p, x, y, r + q) by {
        assert p + x + (r + q) == (p + x + r) + q && p + y + (r + q) == (p + y + r) + q;
      }
      assert OneEdit(a + q, m + q);
      EditsAppend(m, b, k - 1, q);
    }
  }

  lemma {:induction false} EditsThen(a: string, b: string, c: string, k: nat)
    requires Edits(a, b, k) && OneEdit(b, c)
    ensures Edits(a, c, k + 1)
    decreases k
  {
    if k == 0 {
      assert Edits(c, c, 0);
    } else {
      var m :| OneEdit(a, m) && Edits(m, b, k - 1);
      EditsThen(m, b, c, k - 1);
    }
  }

  /** An edit of last characters. */
  lemma EditLast(a: string, x: string, y: string)
    requires |x| <= 1 && |y| <= 1
    ensures OneEdit(a + x, a + y)
  {
    assert EditAt(a + x, a + y, a, x, y, []);
  }

  lemma {:induction false} DistanceSuffices(a: string, b: string)
    ensures Edits(a, b, Distance(a, b))
    decreases |a| + |b|
  {
    hide Distance, OneEdit;
    Border(a);
    Border(b);
    if a == [] && b == [] {
    } else if a == [] {
      Border(b[..|b| - 1]);
      InsertLast(a, b);
    } else if b == [] {
      Border(a[..|a| - 1]);
      DeleteLast(a, b);
    } else {
      Cell(a, b);
      if Distance(a, b) == Distance(a, b[..|b| - 1]) + 1 {
        InsertLast(a, b);
      } else if Distance(a, b) == Distance(a[..|a| - 1], b) + 1 {
        DeleteLast(a, b);
      } else {
        ReplaceLast(a, b);
      }
    }
  }

  lemma {:induction false} ReplaceLast(a: string, b: string)
    requires a != [] && b != []
    requires Distance(a, b) == Distance(a[..|a| - 1], b[..|b| - 1]) + if a[|a| - 1] == b[|b| - 1] then 0 else 1
    ensures Edits(a, b, Distance(a, b))
    decreases |a| + |b|, 0
  {
    hide Distance, OneEdit;
    var a', b', x, y := a[..|a| - 1], b[..|b| - 1], a[|a| - 1..], b[|b| - 1..];
    DistanceSuffices(a', b');
    EditsAppend(a', b', Distance(a', b'), x);
    assert a' + x == a && b' + y == b;
    if a[|a| - 1] == b[|b| - 1] {
      assert x == y;
    } else {
      EditLast(b', x, y);
      EditsThen(a, b' + x, b, Distance(a', b'));
    }
  }

  lemma {:induction false} InsertLast(a: string, b: string)
    requires b != [] && Distance(a, b) == Distance(a, b[..|b| - 1]) + 1
    ensures Edits(a, b, Distance(a, b))
    decreases |a| + |b|, 0
  {
    hide Distance, OneEdit;
    var b' := b[..|b| - 1];
    DistanceSuffices(a, b');
    EditLast(b', [], b[|b| - 1..]);
    assert b' + [] == b' && b' + b[|b| - 1..] == b;
    EditsThen(a, b', b, Distance(a, b'));
  }

  lemma {:induction false} DeleteLast(a: string, b: string)
    requires a != [] && Distance(a, b) == Distance(a[..|a| - 1], b) + 1
    ensures Edits(a, b, Distance(a, b))
    decreases |a| + |b|, 0
  {
    hide Distance, OneEdit;
    var a' := a[..|a| - 1];
    DistanceSuffices(a', b);
    EditLast(a', a[|a| - 1..], []);
    assert a' + [] == a' && a' + a[|a| - 1..] == a;
    assert Edits(a, b, Distance(a', b) + 1);
  }

  /** The distance is the least number of single-character edits that turn one string into the other. */
  lemma DistanceIsLeastEdits(a: string, b: string, k: nat)
    ensures Edits(a, b, Distance(a, b))
    ensures Edits(a, b, k) ==> Distance(a, b) <= k
  {
    DistanceSuffices(a, b);
    if Edits(a, b, k) {
      EditsBound(a, b, k);
    }
  }
}
