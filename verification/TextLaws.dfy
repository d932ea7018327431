/** What the string functions mean, without their bodies. */
module TextLaws {
  import opened Text

  const BLANKS: set<char> := {' ', '\t', '\n', '\U{0b}', '\U{0c}', '\r'}

  predicate Blank(s: string) {
    forall c :: c in s ==> c in BLANKS
  }

  /** Contains finds a part wherever it stands. */
  lemma ContainsIff(s: string, part: string)
    ensures Contains(s, part) <==> exists a: string, b: string :: s == a + part + b
  {
    if Contains(s, part) {
      ContainsSplits(s, part);
    }
    if a: string, b: string :| s == a + part + b {
      PartContained(a, part, b);
    }
  }

  lemma {:induction false} ContainsSplits(s: string, part: string)
    requires Contains(s, part)
    ensures exists a: string, b: string :: s == a + part + b
  {
    if HasPrefix(s, part) {
      var rest := s[|part|..];
      assert s == [] + part + rest;
    } else {
      ContainsSplits(s[1..], part);
      OneMoreBefore(s, part);
    }
  }

  lemma OneMoreBefore(s: string, part: string)
    requires s != [] && exists a: string, b: string :: s[1..] == a + part + b
    ensures exists a: string, b: string :: s == a + part + b
  {
    var a: string, b: string :| s[1..] == a + part + b;
    var c := [s[0]] + a;
    Regrouped([s[0]], a, part, b);
    assert s == [s[0]] + s[1..];
    assert s == c + part + b;
  }

  lemma Regrouped(head: string, a: string, part: string, b: string)
    ensures head + (a + part + b) == (head + a) + part + b
  {
  }

  lemma {:induction false} PartContained(a: string, part: string, b: string)
    ensures Contains(a + part + b, part)
  {
    var s := a + part + b;
    if a == [] {
      assert s[..|part|] == part;
    } else {
      assert s[1..] == a[1..] + part + b;
      PartContained(a[1..], part, b);
    }
  }

  /** Two letters that differ in case alone. */
  predicate CasePair(lower: char, upper: char) {
    'a' <= lower <= 'z' && upper as int == lower as int - 32
  }

  /** Lower-casing makes two strings equal exactly if they differ in case alone. */
  lemma SameButCase(a: string, b: string)
    ensures ToLower(a) == ToLower(b) <==>
            |a| == |b| && forall i :: 0 <= i < |a| ==> a[i] == b[i] || CasePair(a[i], b[i]) || CasePair(b[i], a[i])
  {
    if ToLower(a) == ToLower(b) {
      forall i | 0 <= i < |a|
        ensures a[i] == b[i] || CasePair(a[i], b[i]) || CasePair(b[i], a[i])
      {
        assert ToLower(a)[i] == LowerChar(a[i]) && ToLower(b)[i] == LowerChar(b[i]);
      }
    }
  }

  /** Slashing turns backslashes and nothing else. */
  lemma SlashedAt(s: string, i: nat)
    requires i < |s|
    ensures Slashed(s)[i] == if s[i] == '\\' then '/' else s[i]
  {
  }

  lemma SpaceIff(c: char)
    ensures Space(c) <==> c in BLANKS
  {
    assert '\t' as int == 9 && '\n' as int == 10 && '\U{0b}' as int == 11 && '\U{0c}' as int == 12 && '\r' as int == 13;
    if Space(c) && c != ' ' {
      var n := c as int;
      assert 9 <= n <= 13;
      assert c == n as char;
    }
  }

  lemma {:induction false} BlanksLeft(left: string, s: string)
    requires Blank(left)
    ensures TrimLeft(left + s) == TrimLeft(s)
  {
    if left == "" {
      assert left + s == s;
    } else {
      SpaceIff(left[0]);
      assert (left + s)[1..] == left[1..] + s;
      BlanksLeft(left[1..], s);
    }
  }

  lemma {:induction false} BlanksRight(s: string, right: string)
    requires Blank(right)
    ensures TrimRight(s + right) == TrimRight(s)
  {
    if right == "" {
      assert s + right == s;
    } else {
      SpaceIff(right[|right| - 1]);
      assert (s + right)[..|s + right| - 1] == s + right[..|right| - 1];
      BlanksRight(s, right[..|right| - 1]);
    }
  }

  /** A text that neither starts nor ends with a blank. */
  predicate Bare(core: string) {
    core != "" && core[0] !in BLANKS && core[|core| - 1] !in BLANKS
  }

  /** Trimming takes the blanks off both ends of a text and nothing else. */
  lemma TrimIs(left: string, core: string, right: string)
    requires Blank(left) && Blank(right) && Bare(core)
    ensures TrimSpace(left + core + right) == core
  {
    hide TrimLeft, TrimRight, Space, Blank;
    assert left + core + right == left + (core + right);
    BlanksLeft(left, core + right);
    SpaceIff(core[0]);
    SpaceIff(core[|core| - 1]);
    TrimmedLeft(core + right);
    BlanksRight(core, right);
    TrimmedRight(core);
  }

  lemma TrimmedLeft(s: string)
    requires s != "" && !Space(s[0])
    ensures TrimLeft(s) == s
  {
  }

  lemma TrimmedRight(s: string)
    requires s != "" && !Space(s[|s| - 1])
    ensures TrimRight(s) == s
  {
  }

  /** The number that decimal digits stand for. */
  function Value(s: string): int {
    if s == [] then 0 else 10 * Value(s[..|s| - 1]) + (s[|s| - 1] as int - '0' as int)
  }

  lemma {:induction false} DecimalValue(n: nat)
    ensures Value(Decimal(n)) == n
  {
    DigitValue(n % 10);
    if n < 10 {
      assert Decimal(n) == [Digit(n)];
      assert Decimal(n)[..0] == [];
    } else {
      DecimalValue(n / 10);
      assert Decimal(n) == Decimal(n / 10) + [Digit(n % 10)];
      assert Decimal(n)[..|Decimal(n)| - 1] == Decimal(n / 10);
    }
  }

  lemma DigitValue(d: nat)
    requires d < 10
    ensures Digit(d) as int - '0' as int == d
  {
  }

  /** Numbers in decimals can be read back, so no two are written alike. */
  lemma ItoaTells(n: int, m: int)
    requires Itoa(n) == Itoa(m)
    ensures n == m
  {
    hide Decimal, Value;
    if n >= 0 {
      DecimalValue(n);
      assert Itoa(n)[0] in Decimal(n);
    } else {
      DecimalValue(-n);
      assert Itoa(n)[1..] == Decimal(-n) && Itoa(n)[0] == '-';
    }
    if m >= 0 {
      DecimalValue(m);
      assert Itoa(m)[0] in Decimal(m);
    } else {
      DecimalValue(-m);
      assert Itoa(m)[1..] == Decimal(-m) && Itoa(m)[0] == '-';
    }
  }
}
