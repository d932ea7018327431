/** The directory shape of the game layer, and the near-miss check of project folders against it. */
module FolderSchema {
  import opened Order
  import opened Text
  import Levenshtein
  import opened Wrappers

  function LastIndexOf(s: string, c: char): (i: int)
    ensures -1 <= i < |s|
    ensures i >= 0 ==> s[i] == c && c !in s[i + 1..]
    ensures i < 0 ==> c !in s
  {
    if s == [] then -1
    else
      assert s == s[..|s| - 1] + [s[|s| - 1]];
      if s[|s| - 1] == c then |s| - 1 else LastIndexOf(s[..|s| - 1], c)
  }

  /** The directory above dir; the source root is the empty string. */
  function ParentDir(dir: string): (p: string)
    ensures dir != "" ==> |p| < |dir|
  {
    var i := LastIndexOf(dir, '/');
    if i <= 0 then "" else dir[..i]
  }

  function DropTrailing(s: string): string {
    if s != [] && s[|s| - 1] == '/' then DropTrailing(s[..|s| - 1]) else s
  }

  /** path.Base: the last element after trailing slashes are dropped. */
  function Base(dir: string): string {
    if dir == "" then "."
    else
      var trimmed := DropTrailing(dir);
      if trimmed == "" then "/" else trimmed[LastIndexOf(trimmed, '/') + 1..]
  }

  function DropLeading(s: string): string {
    if s != [] && s[0] == '/' then DropLeading(s[1..]) else s
  }

  /** A relative path in lower case, with forward slashes and none at its ends. */
  function Cleaned(rel: string): string {
    DropTrailing(DropLeading(ToLower(Slashed(rel))))
  }

  /** The lower-cased directory of a relative path, with forward slashes and none at its ends; empty for a file at the root. */
  function NormalizeDir(rel: string): string {
    var cleaned := Cleaned(rel);
    var i := LastIndexOf(cleaned, '/');
    if i <= 0 then "" else cleaned[..i]
  }

  ghost predicate Slashes(s: string) {
    forall c :: c in s ==> c == '/'
  }

  lemma SlashesPart(s: string, part: string)
    requires Slashes(s) && forall c :: c in part ==> c in s
    ensures Slashes(part)
  {
  }

  lemma {:induction false} LeadingDropped(left: string, s: string)
    requires Slashes(left)
    ensures DropLeading(left + s) == DropLeading(s)
  {
    if left == "" {
      assert left + s == s;
    } else {
      assert left[0] in left && (left + s)[1..] == left[1..] + s;
      SlashesPart(left, left[1..]);
      LeadingDropped(left[1..], s);
    }
  }

  lemma {:induction false} TrailingDropped(s: string, right: string)
    requires Slashes(right)
    ensures DropTrailing(s + right) == DropTrailing(s)
  {
    if right == "" {
      assert s + right == s;
    } else {
      assert right[|right| - 1] in right && (s + right)[..|s + right| - 1] == s + right[..|right| - 1];
      SlashesPart(right, right[..|right| - 1]);
      TrailingDropped(s, right[..|right| - 1]);
    }
  }

  /** The directory of a path is what stands before its last slash, and nothing for a file at the root; case, the kind of slash
      and slashes at the ends do not matter. */
  lemma DirectoryIs(left: string, dir: string, file: string, right: string)
    requires Slashes(left) && Slashes(right) && dir != "" && dir[0] != '/' && file != "" && '/' !in file
    ensures forall rel :: ToLower(Slashed(rel)) == left + (dir + "/" + file) + right ==> NormalizeDir(rel) == dir
    ensures forall rel :: ToLower(Slashed(rel)) == left + file + right ==> NormalizeDir(rel) == ""
  {
    var path := dir + "/" + file;
    assert left + path + right == left + (path + right) && left + file + right == left + (file + right);
    LeadingDropped(left, path + right);
    LeadingDropped(left, file + right);
    assert path[0] == dir[0] && path[|path| - 1] == file[|file| - 1];
    TrailingDropped(path, right);
    TrailingDropped(file, right);
    LastSlash(dir, file);
    assert path[..|dir|] == dir;
    assert LastIndexOf(file, '/') == -1;
    assert file[0] in file && file[|file| - 1] in file;
  }

  lemma LastSlash(dir: string, file: string)
    requires '/' !in file
    ensures LastIndexOf(dir + "/" + file, '/') == |dir|
  {
    var path := dir + "/" + file;
    assert path[|dir|] == '/' && path[|dir| + 1..] == file;
    LastIndexIs(path, '/', |dir|);
  }

  lemma LastIndexIs(s: string, c: char, k: nat)
    requires k < |s| && s[k] == c && c !in s[k + 1..]
    ensures LastIndexOf(s, c) == k
  {
    hide LastIndexOf;
    var i := LastIndexOf(s, c);
    assert forall j :: k < j < |s| ==> s[j] == s[k + 1..][j - k - 1];
    assert forall j :: i < j < |s| ==> s[j] == s[i + 1..][j - i - 1];
  }

  /** A directory with no empty segment. */
  predicate SlashNormal(dir: string) {
    && dir != "" && dir[0] != '/' && dir[|dir| - 1] != '/'
    && forall i :: 0 <= i < |dir| - 1 ==> !(dir[i] == '/' && dir[i + 1] == '/')
  }

  /** A child of a directory; the children of the root carry no slash. */
  function Child(parent: string, name: string): string {
    if parent == "" then name else parent + "/" + name
  }

  lemma ParentAndBase(dir: string)
    requires SlashNormal(dir)
    ensures dir == Child(ParentDir(dir), Base(dir))
    ensures ParentDir(dir) == "" || SlashNormal(ParentDir(dir))
    ensures Base(dir) != "" && '/' !in Base(dir)
  {
    var i := LastIndexOf(dir, '/');
    assert DropTrailing(dir) == dir;
    if i > 0 {
      assert dir == dir[..i] + [dir[i]] + dir[i + 1..];
    }
  }

  /** The recorded shape: every known directory, and the names of its known children. */
  datatype Shape = Shape(dirs: set<string>, children: map<string, set<string>>)

  /** d hangs under its parent. */
  ghost predicate Hangs(s: Shape, d: string) {
    ParentDir(d) in s.dirs && ParentDir(d) in s.children && Base(d) in s.children[ParentDir(d)]
  }

  /** The children sets name known directories only. */
  ghost predicate ChildrenKnown(s: Shape) {
    forall p, n {:trigger n in s.children[p]} :: p in s.children && n in s.children[p] ==> p in s.dirs && Child(p, n) in s.dirs
  }

  /** The directories are closed under parents and say the same as the children sets. */
  ghost predicate Consistent(s: Shape) {
    (forall d :: d in s.dirs && d != "" ==> Hangs(s, d)) && ChildrenKnown(s)
  }

  function AddLevel(s: Shape, dir: string): Shape {
    var parent := ParentDir(dir);
    Shape(s.dirs + {dir, parent},
          s.children[parent := (if parent in s.children then s.children[parent] else {}) + {Base(dir)}])
  }

  /** Recording a directory: one level after the other, up to the root. */
  function Recorded(s: Shape, dir: string): Shape
    decreases |dir|
  {
    if dir == "" then s else Recorded(AddLevel(s, dir), ParentDir(dir))
  }

  /** Consistent but for the parent link of one directory. */
  ghost predicate ConsistentBut(s: Shape, pending: string) {
    (forall d {:trigger Hangs(s, d)} :: d in s.dirs && d != "" && d != pending ==> Hangs(s, d)) && ChildrenKnown(s)
  }

  lemma AddLevelConsistent(s: Shape, dir: string)
    requires SlashNormal(dir) && ConsistentBut(s, dir)
    ensures ConsistentBut(AddLevel(s, dir), ParentDir(dir))
  {
    hide ParentDir, Base, Child, SlashNormal;
    ParentAndBase(dir);
    var t := AddLevel(s, dir);
    forall d {:trigger Hangs(t, d)} | d in t.dirs && d != "" && d != ParentDir(dir)
      ensures Hangs(t, d)
    {
      if d != dir {
        assert Hangs(s, d);
      }
    }
  }

  lemma {:induction false} RecordedConsistent(s: Shape, dir: string)
    requires dir == "" || SlashNormal(dir)
    requires ConsistentBut(s, dir)
    ensures Consistent(Recorded(s, dir))
    decreases |dir|
  {
    if dir != "" {
      ParentAndBase(dir);
      AddLevelConsistent(s, dir);
      RecordedConsistent(AddLevel(s, dir), ParentDir(dir));
    }
  }

  /** dir and all directories above it, up to and including the root. */
  ghost function Above(dir: string): set<string>
    decreases |dir|
  {
    if dir == "" then {""} else {dir} + Above(ParentDir(dir))
  }

  lemma {:induction false} RecordedDirs(s: Shape, dir: string)
    ensures Recorded(s, dir).dirs == s.dirs + if dir == "" then {} else Above(dir)
    decreases |dir|
  {
    if dir != "" {
      RecordedDirs(AddLevel(s, dir), ParentDir(dir));
    }
  }

  predicate NoDouble(s: string) {
    forall i :: 0 <= i < |s| - 1 ==> !(s[i] == '/' && s[i + 1] == '/')
  }

  lemma NoDoubleAt(s: string, i: nat)
    requires NoDouble(s) && 0 < i < |s| && s[i] == '/'
    ensures s[i - 1] != '/'
  {
    var k := i - 1;
    assert s[k + 1] == s[i];
  }

  lemma {:induction false} DropTrailingPrefix(s: string)
    ensures |DropTrailing(s)| <= |s| && DropTrailing(s) == s[..|DropTrailing(s)|]
    ensures DropTrailing(s) != "" ==> DropTrailing(s)[|DropTrailing(s)| - 1] != '/'
  {
    if s != [] && s[|s| - 1] == '/' {
      DropTrailingPrefix(s[..|s| - 1]);
    }
  }

  lemma {:induction false} DropLeadingHead(s: string)
    ensures DropLeading(s) != "" ==> DropLeading(s)[0] != '/'
  {
    if s != [] && s[0] == '/' {
      DropLeadingHead(s[1..]);
    }
  }

  lemma CleanedEnds(rel: string)
    ensures Cleaned(rel) != "" ==> Cleaned(rel)[0] != '/' && Cleaned(rel)[|Cleaned(rel)| - 1] != '/'
  {
    var left := DropLeading(ToLower(Slashed(rel)));
    DropLeadingHead(ToLower(Slashed(rel)));
    DropTrailingPrefix(left);
    if Cleaned(rel) != "" {
      assert left[0] == Cleaned(rel)[0];
    }
  }

  /** The directory of a path never starts with a slash, and it has an empty segment exactly if the path has one once the
      slashes at its ends are dropped. */
  lemma NormalizedIsNormal(rel: string)
    ensures NoLeading(NormalizeDir(rel))
    ensures NormalizeDir(rel) == "" || SlashNormal(NormalizeDir(rel)) <==> NoDouble(Cleaned(rel))
  {
    var cleaned := Cleaned(rel);
    CleanedEnds(rel);
    hide Cleaned;
    var i := LastIndexOf(cleaned, '/');
    if i > 0 {
      var dir := cleaned[..i];
      assert dir[|dir| - 1] == cleaned[i - 1] && cleaned[i - 1 + 1] == '/';
      if SlashNormal(dir) {
        forall j | 0 <= j < |cleaned| - 1
          ensures !(cleaned[j] == '/' && cleaned[j + 1] == '/')
        {
          if j + 1 < i {
            assert dir[j] == cleaned[j] && dir[j + 1] == cleaned[j + 1];
          } else if j >= i {
            assert cleaned[j + 1] in cleaned[i + 1..];
          }
        }
      }
      if NoDouble(cleaned) {
        NoDoubleAt(cleaned, i);
        forall j | 0 <= j < |dir| - 1
          ensures !(dir[j] == '/' && dir[j + 1] == '/')
        {
          assert dir[j] == cleaned[j] && dir[j + 1] == cleaned[j + 1];
        }
      }
    }
  }

  predicate NoLeading(dir: string) {
    dir == "" || dir[0] != '/'
  }

  predicate Trailing(dir: string) {
    dir != "" && dir[|dir| - 1] == '/'
  }

  ghost predicate FiledAs(s: Shape, p: string, n: string) {
    exists d :: d in s.dirs && d != "" && ParentDir(d) == p && Base(d) == n
  }

  /** The children sets hold what recorded directories were filed as, and nothing else. */
  ghost predicate Filed(s: Shape) {
    forall p, n {:trigger n in s.children[p]} :: p in s.children && n in s.children[p] ==> p in s.dirs && FiledAs(s, p, n)
  }

  /** What every record keeps, whatever the path; one directory may still wait for its own filing. */
  ghost predicate FaithfulBut(s: Shape, pending: string) {
    && (forall d :: d in s.dirs ==> NoLeading(d))
    && (forall d {:trigger Hangs(s, d)} :: d in s.dirs && d != "" && d != pending ==> Hangs(s, d))
    && Filed(s)
  }

  ghost predicate Faithful(s: Shape) {
    FaithfulBut(s, "")
  }

  lemma ParentNoLeading(dir: string)
    requires NoLeading(dir)
    ensures NoLeading(ParentDir(dir))
  {
  }

  lemma AddLevelFaithful(s: Shape, dir: string)
    requires FaithfulBut(s, dir) && dir != "" && NoLeading(dir)
    ensures FaithfulBut(AddLevel(s, dir), ParentDir(dir))
  {
    hide ParentDir, Base, NoLeading;
    ParentNoLeading(dir);
    var t := AddLevel(s, dir);
    forall d {:trigger Hangs(t, d)} | d in t.dirs && d != "" && d != ParentDir(dir)
      ensures Hangs(t, d)
    {
      if d != dir {
        assert Hangs(s, d);
      }
    }
    forall p, n {:trigger n in t.children[p]} | p in t.children && n in t.children[p]
      ensures p in t.dirs && FiledAs(t, p, n)
    {
      if p in s.children && n in s.children[p] {
        var d :| d in s.dirs && d != "" && ParentDir(d) == p && Base(d) == n;
        assert d in t.dirs;
      } else {
        assert dir in t.dirs;
      }
    }
  }

  /** Every record keeps the shape faithful. */
  lemma {:induction false} RecordedFaithful(s: Shape, dir: string)
    requires FaithfulBut(s, dir) && NoLeading(dir)
    ensures Faithful(Recorded(s, dir))
    decreases |dir|
  {
    hide FaithfulBut;
    if dir != "" {
      AddLevelFaithful(s, dir);
      ParentNoLeading(dir);
      RecordedFaithful(AddLevel(s, dir), ParentDir(dir));
    }
  }

  lemma ChildOf(d: string)
    requires d != "" && NoLeading(d)
    ensures Base(d) != "" && '/' !in Base(d)
    ensures Child(ParentDir(d), Base(d)) == if Trailing(d) then d + Base(d) else d
  {
    DropTrailingPrefix(d);
    if Trailing(d) {
      assert d[..|d| - 1] + "/" == d;
      DropTrailingKeepsHead(d);
    } else {
      var i := LastIndexOf(d, '/');
      if i > 0 {
        assert d == d[..i] + [d[i]] + d[i + 1..];
      }
    }
  }

  lemma {:induction false} DropTrailingKeepsHead(d: string)
    requires d != "" && d[0] != '/'
    ensures DropTrailing(d) != ""
  {
    if d[|d| - 1] == '/' {
      DropTrailingKeepsHead(d[..|d| - 1]);
    }
  }

  /** Every directory that ends in a slash has, one level below, a directory of its own name. */
  ghost predicate StraysKnown(dirs: set<string>) {
    forall d {:trigger Base(d)} :: d in dirs && Trailing(d) ==> d + Base(d) in dirs
  }

  /** After any records the shape agrees with itself exactly when the stray children of empty segments are directories. */
  lemma ConsistentIff(s: Shape)
    requires Faithful(s)
    ensures Consistent(s) <==> StraysKnown(s.dirs)
  {
    hide ParentDir, Base, Child, NoLeading, Trailing;
    if Consistent(s) {
      forall d {:trigger Base(d)} | d in s.dirs && Trailing(d)
        ensures d + Base(d) in s.dirs
      {
        StrayFiled(s, d);
      }
    }
    if StraysKnown(s.dirs) {
      forall p, n {:trigger n in s.children[p]} | p in s.children && n in s.children[p]
        ensures p in s.dirs && Child(p, n) in s.dirs
      {
        var d :| d in s.dirs && d != "" && ParentDir(d) == p && Base(d) == n;
        ChildOf(d);
      }
    }
  }

  lemma StrayFiled(s: Shape, d: string)
    requires Faithful(s) && Consistent(s) && d in s.dirs && Trailing(d)
    ensures d + Base(d) in s.dirs
  {
    hide ParentDir, Base, Child;
    assert Hangs(s, d);
    ChildOf(d);
    assert Base(d) in s.children[ParentDir(d)];
  }

  /** The levels of a directory are its prefixes before a slash. */
  lemma {:induction false} LevelOf(dir: string, d: string)
    requires d in Above(dir)
    ensures d == "" || d == dir || (|d| < |dir| && dir[..|d|] == d && dir[|d|] == '/')
    decreases |dir|
  {
    if d != dir && dir != "" {
      LevelOf(ParentDir(dir), d);
      var i := LastIndexOf(dir, '/');
      if d != "" && i > 0 {
        assert dir[..i][..|d|] == dir[..|d|];
      }
    }
  }

  lemma {:induction false} LevelAt(dir: string, j: nat)
    requires 0 < j < |dir| && dir[j] == '/'
    ensures dir[..j] in Above(dir)
    decreases |dir|
  {
    var i := LastIndexOf(dir, '/');
    assert forall k :: i < k < |dir| ==> dir[k] == dir[i + 1..][k - i - 1];
    if j < i {
      assert dir[..i][..j] == dir[..j];
      LevelAt(dir[..i], j);
    } else {
      AboveSelf(dir[..i]);
    }
  }

  lemma AboveSelf(dir: string)
    ensures dir in Above(dir)
  {
  }

  /** The first path recorded leaves agreement if and only if its directory has no empty segment. */
  lemma FirstRecordConsistentIff(dir: string)
    requires NoLeading(dir)
    ensures Consistent(Recorded(Shape({}, map[]), dir)) <==> dir == "" || SlashNormal(dir)
  {
    hide Consistent, ParentDir, Base, Above;
    var empty := Shape({}, map[]);
    var s := Recorded(empty, dir);
    RecordedFaithful(empty, dir);
    RecordedDirs(empty, dir);
    ConsistentIff(s);
    if dir == "" {
      assert s == empty;
      assert StraysKnown(s.dirs);
    } else if SlashNormal(dir) {
      forall d | d in s.dirs
        ensures !Trailing(d)
      {
        LevelNormal(dir, d);
      }
    } else {
      var d := StrayLevel(dir);
      StrayUnknown(dir, d);
    }
  }

  lemma LevelNormal(dir: string, d: string)
    requires SlashNormal(dir) && d in Above(dir)
    ensures !Trailing(d)
  {
    hide Above;
    LevelOf(dir, d);
    if d != "" && |d| < |dir| {
      NoDoubleAt(dir, |d|);
      assert dir[|d| - 1] == d[|d| - 1];
    }
  }

  lemma StrayLevel(dir: string) returns (d: string)
    requires dir != "" && NoLeading(dir) && !SlashNormal(dir)
    ensures d in Above(dir) && Trailing(d)
  {
    hide Above, ParentDir;
    if dir[|dir| - 1] == '/' {
      AboveSelf(dir);
      d := dir;
    } else {
      var i :| 0 <= i < |dir| - 1 && dir[i] == '/' && dir[i + 1] == '/';
      LevelAt(dir, i + 1);
      d := dir[..i + 1];
    }
  }

  lemma StrayUnknown(dir: string, d: string)
    requires NoLeading(dir) && d in Above(dir) && Trailing(d) && NoLeading(d)
    ensures d + Base(d) !in Above(dir)
  {
    hide Above, ParentDir, Base;
    ChildOf(d);
    var e := d + Base(d);
    assert e[|d|] == Base(d)[0] && Base(d)[0] in Base(d);
    if e in Above(dir) {
      LevelOf(dir, e);
      PrefixAt(dir, e, |d|);
      LevelOf(dir, d);
    }
  }

  lemma PrefixAt(dir: string, e: string, k: nat)
    requires k < |e| <= |dir| && dir[..|e|] == e
    ensures dir[k] == e[k]
  {
  }

  lemma TrailingSlash(x: string)
    requires x != "" && '/' !in x
    ensures ParentDir(x + "/") == x && Base(x + "/") == x && ParentDir(x) == ""
  {
    var dir := x + "/";
    assert dir[..|dir| - 1] == x;
    assert DropTrailing(x) == x && DropTrailing(dir) == x;
    assert LastIndexOf(x, '/') == -1 && LastIndexOf(dir, '/') == |x|;
  }

  /** An empty segment breaks the agreement: the directory "x/" is filed as a child "x" of "x", though "x/x" is no directory. */
  lemma DoubleSlashBreaks(x: string)
    requires x != "" && '/' !in x
    ensures var s := Recorded(Shape({}, map[]), x + "/");
            x in s.children && x in s.children[x] && Child(x, x) !in s.dirs && !Consistent(s)
  {
    hide Consistent, ParentDir, Base;
    StrayRecorded(x);
    var s := Recorded(Shape({}, map[]), x + "/");
    assert |Child(x, x)| == |x| + 1 + |x| && |x + "/"| == |x| + 1;
    NotConsistent(s, x, x);
  }

  lemma StrayRecorded(x: string)
    requires x != "" && '/' !in x
    ensures var s := Recorded(Shape({}, map[]), x + "/");
            s.dirs == {x + "/", x, ""} && s.children.Keys == {x, ""} && s.children[x] == {x}
  {
    hide ParentDir, Base;
    TrailingSlash(x);
    var empty, dir := Shape({}, map[]), x + "/";
    var one := AddLevel(empty, dir);
    var two := AddLevel(one, x);
    assert Recorded(two, "") == two;
    assert Recorded(one, x) == two;
    assert Recorded(empty, dir) == two;
  }

  lemma ChildSplits(x: string, n: string)
    requires x != "" && '/' !in x && n != "" && '/' !in n
    ensures ParentDir(Child(x, n)) == x && Base(Child(x, n)) == n
  {
    var dir := Child(x, n);
    assert dir[|x|] == '/' && dir[|x| + 1..] == n && dir[..|x|] == x;
    var i := LastIndexOf(dir, '/');
    assert forall j :: |x| < j < |dir| ==> dir[j] == n[j - |x| - 1];
    assert forall j :: i < j < |dir| ==> dir[j] == dir[i + 1..][j - i - 1];
    assert i == |x|;
    assert dir[|dir| - 1] == n[|n| - 1];
    assert DropTrailing(dir) == dir;
  }

  /** What the stray child does to a verdict: after "x/" every directory of x with a name like x itself is said to be meant as
      "x/x", and that is no directory. */
  lemma StrayVerdict(x: string, n: string)
    requires x != "" && '/' !in x && n != "" && '/' !in n
    ensures var s, dir := Recorded(Shape({}, map[]), x + "/"), Child(x, n);
            && dir !in s.dirs && ParentDir(dir) in s.dirs && ParentDir(dir) in s.children
            && (Nearest(s.children[ParentDir(dir)], Base(dir), Some(x)) <==> n != x && Similarity(n, x).Some?)
            && Child(ParentDir(dir), x) !in s.dirs
  {
    hide ParentDir, Base, Similarity, Leq;
    StrayRecorded(x);
    ChildSplits(x, n);
    assert |Child(x, x)| == |x| + 1 + |x| && |Child(x, n)| == |x| + 1 + |n| && |x + "/"| == |x| + 1;
    LeqReflexive(x);
    assert Candidate({x}, n, x) <==> n != x && Similarity(n, x).Some?;
  }

  lemma NotConsistent(s: Shape, p: string, n: string)
    requires p in s.children && n in s.children[p] && Child(p, n) !in s.dirs
    ensures !Consistent(s)
  {
  }

  /** strings.Split. */
  function Split(s: string, c: char): (parts: seq<string>)
    ensures parts != []
  {
    var i := IndexOf(s, c);
    if i == |s| then [s] else [s[..i]] + Split(s[i + 1..], c)
  }

  function Singular(token: string): string {
    if |token| > 3 && HasSuffix(token, "s") && !HasSuffix(token, "ss") then token[..|token| - 1] else token
  }

  function SingularParts(parts: seq<string>): seq<string> {
    if parts == [] then []
    else (if parts[0] == "" then [] else [Singular(parts[0])]) + SingularParts(parts[1..])
  }

  /** A plural is a token of four letters or more that ends in one s. */
  lemma SingularIs(stem: string)
    ensures |stem| >= 3 && !HasSuffix(stem, "s") ==> Singular(stem + "s") == stem
    ensures |stem| <= 3 || !HasSuffix(stem, "s") || HasSuffix(stem, "ss") ==> Singular(stem) == stem
  {
    var plural := stem + "s";
    assert plural[..|stem|] == stem && plural[|plural| - 1..] == "s";
    if |stem| >= 3 {
      assert plural[|plural| - 2..] == [stem[|stem| - 1]] + "s" && stem[|stem| - 1..] == [stem[|stem| - 1]];
    }
  }

  function SingularTokens(name: string): seq<string> {
    SingularParts(Split(name, '_'))
  }

  function SharedCount(left: seq<string>, right: seq<string>): (n: nat)
    ensures n <= |left|
  {
    if left == [] then 0 else (if left[0] in right then 1 else 0) + SharedCount(left[1..], right)
  }

  ghost function SharedPlaces(left: seq<string>, right: seq<string>): set<int> {
    set i: int | 0 <= i < |left| && left[i] in right
  }

  /** How many places of the left name hold a token of the right one. */
  lemma {:induction false} SharedIs(left: seq<string>, right: seq<string>)
    ensures SharedCount(left, right) == |SharedPlaces(left, right)|
  {
    if left != [] {
      SharedIs(left[1..], right);
      var rest, all := SharedPlaces(left[1..], right), SharedPlaces(left, right);
      var moved := set i | i in rest :: i + 1;
      SameCount(rest, moved);
      assert all == moved + if left[0] in right then {0} else {} by {
        forall i
          ensures i in all <==> i in moved || (i == 0 && left[0] in right)
        {
          if i in all && i > 0 {
            assert left[1..][i - 1] == left[i];
            assert i - 1 in rest;
          }
        }
      }
      assert 0 !in moved;
    }
  }

  lemma {:induction false} SameCount(a: set<int>, b: set<int>)
    requires b == set i | i in a :: i + 1
    ensures |a| == |b|
  {
    NoneLeft(a);
    if a == {} {
      assert b == {};
    } else {
      var i :| i in a;
      var c, d := a - {i}, b - {i + 1};
      assert forall k :: k in d <==> k - 1 in c by {
        forall k
          ensures k in d <==> k - 1 in c
        {
          assert k in b ==> exists m :: m in a && k == m + 1;
          assert k - 1 in a ==> k - 1 + 1 in b;
        }
      }
      assert d == set k | k in c :: k + 1;
      SameCount(c, d);
      assert b == d + {i + 1};
    }
  }

  lemma RatioAtMostOne(n: nat, m: int)
    requires n <= m && m > 0
    ensures 0.0 <= n as real / m as real <= 1.0
  {
  }

  lemma RatioBelowOne(n: nat, m: int)
    requires n < m
    ensures 0.0 <= n as real / m as real < 1.0
  {
  }

  /** Two names for the same concept: the same head token and half of the tokens shared, or a short edit distance. */
  function Similarity(a: string, b: string): (score: Option<real>)
    ensures score.Some? ==> 0.0 < score.value <= 1.0
  {
    var left, right := SingularTokens(a), SingularTokens(b);
    if left == [] || right == [] then None
    else
      var shared := SharedCount(left, right) as real / Max(|left|, |right|) as real;
      RatioAtMostOne(SharedCount(left, right), Max(|left|, |right|));
      if left[0] == right[0] && shared >= 0.5 then Some(shared)
      else if |a| >= 5 && |b| >= 5 && Levenshtein.Distance(a, b) <= 2
      then
        RatioBelowOne(Levenshtein.Distance(a, b), Max(|a|, |b|));
        Some(1.0 - Levenshtein.Distance(a, b) as real / Max(|a|, |b|) as real)
      else None
  }

  /** Names that are similar by their edits, not by their tokens. */
  predicate CloseSpelling(a: string, b: string) {
    && SingularTokens(a) != [] && SingularTokens(b) != [] && SingularTokens(a)[0] != SingularTokens(b)[0]
    && |a| >= 5 && |b| >= 5 && Levenshtein.Distance(a, b) <= 2
  }

  /** Names that are similar by their tokens. */
  predicate CloseTokens(a: string, b: string) {
    var left, right := SingularTokens(a), SingularTokens(b);
    left != [] && right != [] && left[0] == right[0] && 2 * SharedCount(left, right) >= |left| && 2 * SharedCount(left, right) >= |right|
  }

  /** When names are similar, without the scores. */
  lemma SimilarIff(a: string, b: string)
    ensures Similarity(a, b).Some? <==>
            CloseTokens(a, b) || (SingularTokens(a) != [] && SingularTokens(b) != [] && |a| >= 5 && |b| >= 5 && Levenshtein.Distance(a, b) <= 2)
  {
    var left, right := SingularTokens(a), SingularTokens(b);
    if left != [] && right != [] {
      HalfOrMore(SharedCount(left, right), Max(|left|, |right|));
    }
  }

  lemma HalfOrMore(n: nat, m: int)
    requires m > 0
    ensures n as real / m as real >= 0.5 <==> 2 * n >= m
  {
    var x, y := n as real, m as real;
    assert x / y * y == x;
    if x / y >= 0.5 {
      assert x / y * y >= 0.5 * y;
    } else {
      assert x / y * y < 0.5 * y;
    }
  }

  lemma RatioOrder(n: nat, k: nat, m: int)
    requires n < k && m > 0
    ensures n as real / m as real < k as real / m as real
  {
    var x, z, y := n as real, k as real, m as real;
    if x / y >= z / y {
      assert x / y * y >= z / y * y;
      assert x / y * y == x && z / y * y == z;
    }
  }

  /** Of two siblings of one length that are similar by their edits, the one with fewer edits is nearer. */
  lemma FewerEditsNearer(name: string, a: string, b: string)
    requires CloseSpelling(name, a) && CloseSpelling(name, b) && |a| == |b|
    requires Levenshtein.Distance(name, a) < Levenshtein.Distance(name, b)
    ensures Similarity(name, a).Some? && Similarity(name, b).Some? && Beats(name, a, b) && !Beats(name, b, a)
  {
    hide SingularTokens;
    RatioOrder(Levenshtein.Distance(name, a), Levenshtein.Distance(name, b), Max(|name|, |a|));
  }

  /** Of two siblings similar by their tokens, with as many tokens, the one that shares more is nearer. */
  lemma MoreSharedNearer(name: string, a: string, b: string)
    requires CloseTokens(name, a) && CloseTokens(name, b) && |SingularTokens(a)| == |SingularTokens(b)|
    requires SharedCount(SingularTokens(name), SingularTokens(a)) > SharedCount(SingularTokens(name), SingularTokens(b))
    ensures Similarity(name, a).Some? && Similarity(name, b).Some? && Beats(name, a, b) && !Beats(name, b, a)
  {
    hide SingularTokens, SharedCount;
    var left, right, other := SingularTokens(name), SingularTokens(a), SingularTokens(b);
    HalfOrMore(SharedCount(left, right), Max(|left|, |right|));
    HalfOrMore(SharedCount(left, other), Max(|left|, |other|));
    RatioOrder(SharedCount(left, other), SharedCount(left, right), Max(|left|, |right|));
  }

  /** A folder renamed from its plural to the same head noun with a suffix is similar: religions and religion_types. */
  lemma RenamedIsSimilar(noun: string, suffix: string)
    requires |noun| >= 3 && '_' !in noun && !HasSuffix(noun, "s") && suffix != "" && '_' !in suffix && Singular(suffix) != noun
    ensures Similarity(noun + "s", noun + ("_" + suffix)) == Some(0.5)
  {
    PluralToken(noun);
    TwoTokens(noun, suffix);
    assert SharedCount([noun][1..], [noun, Singular(suffix)]) == 0;
    assert SharedCount([noun], [noun, Singular(suffix)]) == 1;
    assert 1 as real / 2 as real == 0.5;
  }

  lemma PluralToken(noun: string)
    requires |noun| >= 3 && '_' !in noun && !HasSuffix(noun, "s")
    ensures SingularTokens(noun + "s") == [noun]
  {
    var plural := noun + "s";
    OneToken(plural);
    assert plural[..|noun|] == noun && plural[|noun|..] == "s";
    assert plural[|plural| - 2..] == [noun[|noun| - 1]] + "s";
    assert noun[|noun| - 1..] == [noun[|noun| - 1]];
  }

  lemma TwoTokens(first: string, second: string)
    requires first != "" && '_' !in first && second != "" && '_' !in second
    ensures SingularTokens(first + ("_" + second)) == [Singular(first), Singular(second)]
  {
    var name := first + ("_" + second);
    assert name[..|first|] == first && name[|first|] == '_' && name[|first| + 1..] == second;
    IndexOfFirst(name, '_', |first|);
    assert IndexOf(second, '_') == |second|;
    assert Split(second, '_') == [second];
    assert Split(name, '_') == [first] + [second];
    assert [first, second][1..] == [second] && [second][1..] == [];
    assert SingularParts([]) == [];
    assert SingularParts([second]) == [Singular(second)];
  }

  /** Any two names of five letters or more and of one token are similar if one edit leads from one to the other. */
  lemma TypoIsSimilar(a: string, b: string)
    requires |a| >= 5 && |b| >= 5 && '_' !in a && '_' !in b && Levenshtein.OneEdit(a, b)
    ensures Similarity(a, b).Some?
  {
    OneToken(a);
    OneToken(b);
    Levenshtein.OneEditIsNear(a, b);
  }

  lemma OneToken(name: string)
    requires name != "" && '_' !in name
    ensures SingularTokens(name) == [Singular(name)]
  {
    assert IndexOf(name, '_') == |name|;
    assert Split(name, '_') == [name];
    assert [name][1..] == [];
    assert SingularParts([]) == [];
  }

  predicate Candidate(siblings: set<string>, name: string, sibling: string) {
    sibling in siblings && sibling != name && Similarity(name, sibling).Some?
  }

  /** The nearest sibling: of all candidates one with the highest score, and of those the first by name. */
  ghost predicate Nearest(siblings: set<string>, name: string, best: Option<string>) {
    match best
    case None => forall n :: !Candidate(siblings, name, n)
    case Some(b) => Candidate(siblings, name, b) && forall n :: Candidate(siblings, name, n) ==> Beats(name, b, n)
  }

  predicate Beats(name: string, b: string, n: string)
    requires Similarity(name, b).Some? && Similarity(name, n).Some?
  {
    var sb, sn := Similarity(name, b).value, Similarity(name, n).value;
    sb > sn || (sb == sn && Leq(b, n))
  }

  /** The suggestion does not depend on the order in which the map hands over its keys. */
  lemma NearestUnique(siblings: set<string>, name: string, a: Option<string>, b: Option<string>)
    requires Nearest(siblings, name, a) && Nearest(siblings, name, b)
    ensures a == b
  {
    if a.Some? && b.Some? {
      assert Beats(name, a.value, b.value) && Beats(name, b.value, a.value);
      LeqAntisymmetric(a.value, b.value);
    }
  }

  lemma EmptyIsNoCandidate(name: string)
    ensures Similarity(name, "") == None
  {
    assert Split("", '_') == [""];
    assert SingularParts([""]) == [];
  }

  lemma BeatsTransitive(name: string, a: string, b: string, c: string)
    requires Similarity(name, a).Some? && Similarity(name, b).Some? && Similarity(name, c).Some?
    requires Beats(name, a, b) && Beats(name, b, c)
    ensures Beats(name, a, c)
  {
    if Leq(a, b) && Leq(b, c) {
      LeqTransitive(a, b, c);
    }
  }

  /** The running best over the siblings, in whatever order they come. */
  method NearestSibling(siblings: set<string>, name: string) returns (best: string, found: bool)
    ensures Nearest(siblings, name, if found then Some(best) else None)
  {
    best, found := "", false;
    var bestScore := 0.0;
    var rest := siblings;
    EmptyIsNoCandidate(name);
    while rest != {}
      invariant rest <= siblings
      invariant Nearest(siblings - rest, name, if best != "" then Some(best) else None)
      invariant bestScore == if best != "" then Similarity(name, best).value else 0.0
      decreases rest
    {
      hide Similarity, Leq;
      var sibling :| sibling in rest;
      ghost var done := siblings - rest;
      rest := rest - {sibling};
      assert siblings - rest == done + {sibling};
      if sibling == name {
        NearestSkips(done, name, sibling, best);
        continue;
      }
      var score := Similarity(name, sibling);
      if score.None? {
        NearestSkips(done, name, sibling, best);
        continue;
      }
      NearestMoves(done, name, sibling, best);
      if score.value > bestScore || (score.value == bestScore && Less(sibling, best)) {
        best, bestScore := sibling, score.value;
      }
    }
    found := best != "";
    assert siblings - rest == siblings;
  }

  ghost function Held(best: string): Option<string> {
    if best != "" then Some(best) else None
  }

  lemma NearestSkips(done: set<string>, name: string, sibling: string, best: string)
    requires Nearest(done, name, Held(best)) && !Candidate({sibling}, name, sibling)
    ensures Nearest(done + {sibling}, name, Held(best))
  {
    hide Similarity, Beats;
    assert forall n :: Candidate(done + {sibling}, name, n) <==> Candidate(done, name, n);
  }

  lemma NearestMoves(done: set<string>, name: string, sibling: string, best: string)
    requires Nearest(done, name, Held(best)) && sibling != name && Similarity(name, sibling).Some?
    ensures sibling != "" && Similarity(name, sibling).value > 0.0
    ensures best != "" ==> Similarity(name, best).Some?
    ensures var take := best == "" || Similarity(name, sibling).value > Similarity(name, best).value
                        || (Similarity(name, sibling).value == Similarity(name, best).value && Less(sibling, best));
            Nearest(done + {sibling}, name, Held(if take then sibling else best))
  {
    EmptyIsNoCandidate(name);
    hide Similarity, Leq;
    LeqReflexive(sibling);
    assert Candidate(done + {sibling}, name, sibling);
    if best != "" {
      LeqTotal(sibling, best);
      assert Candidate(done + {sibling}, name, best);
      forall n | Candidate(done + {sibling}, name, n)
        ensures n == sibling || (Candidate(done, name, n) && Beats(name, best, n))
        ensures n != sibling && Beats(name, sibling, best) ==> Beats(name, sibling, n)
      {
        if n != sibling {
          assert Candidate(done, name, n);
          if Beats(name, sibling, best) {
            BeatsTransitive(name, sibling, best, n);
          }
        }
      }
    } else {
      forall n | Candidate(done + {sibling}, name, n)
        ensures n == sibling
      {
        assert !Candidate(done, name, n);
      }
    }
  }

  /** What recording a path does to a shape. */
  lemma RecordedMeans(s: Shape, rel: string)
    ensures var t, dir := Recorded(s, NormalizeDir(rel)), NormalizeDir(rel);
            && t.dirs == s.dirs + (if dir == "" then {} else Above(dir))
            && (Consistent(s) && NoDouble(Cleaned(rel)) ==> Consistent(t))
            && (Faithful(s) ==> Faithful(t) && (Consistent(t) <==> StraysKnown(t.dirs)))
  {
    hide Consistent, NormalizeDir, ParentDir, Base, Above, Cleaned, NoDouble, SlashNormal, Faithful, StraysKnown, NoLeading;
    var dir := NormalizeDir(rel);
    RecordedDirs(s, dir);
    NormalizedIsNormal(rel);
    if Consistent(s) && NoDouble(Cleaned(rel)) {
      ConsistentIsConsistentBut(s, dir);
      RecordedConsistent(s, dir);
    }
    if Faithful(s) {
      FaithfulIsFaithfulBut(s, dir);
      RecordedFaithful(s, dir);
      ConsistentIff(Recorded(s, dir));
    }
  }

  /** The recorded game layer. */
  class FolderIndex {
    var dirs: set<string>
    var children: map<string, set<string>>

    constructor ()
      ensures Now() == Shape({}, map[]) && Faithful(Now())
    {
      dirs, children := {}, map[];
    }

    function Now(): Shape
      reads this
    {
      Shape(dirs, children)
    }

    function ChildrenOf(parent: string): set<string>
      reads this
    {
      if parent in children then children[parent] else {}
    }

    /** Files one indexed path under every directory above it. */
    method Record(rel: string)
      modifies this
      ensures Now() == Recorded(old(Now()), NormalizeDir(rel))
      ensures dirs == old(dirs) + if NormalizeDir(rel) == "" then {} else Above(NormalizeDir(rel))
      ensures old(Consistent(Now())) && NoDouble(Cleaned(rel)) ==> Consistent(Now())
      ensures old(Faithful(Now())) ==> Faithful(Now()) && (Consistent(Now()) <==> StraysKnown(dirs))
    {
      hide Consistent, NormalizeDir, ParentDir, Base, Above, Cleaned, NoDouble, Faithful, StraysKnown;
      var dir := NormalizeDir(rel);
      RecordedMeans(Now(), rel);
      var d := dir;
      while d != ""
        invariant Recorded(Now(), d) == Recorded(old(Now()), dir)
        decreases |d|
      {
        var parent := ParentDir(d);
        ghost var before := Now();
        dirs := dirs + {d};
        dirs := dirs + {parent};
        if parent !in children {
          children := children[parent := {}];
        }
        children := children[parent := children[parent] + {Base(d)}];
        assert Now().dirs == AddLevel(before, d).dirs && Now().children == AddLevel(before, d).children;
        d := parent;
      }
    }

    /** Judges one project directory: the known sibling it was probably meant to be, if any. */
    method Evaluate(dir: string) returns (near: Option<string>)
      ensures near.Some? <==> dir != "" && dir !in dirs && ParentDir(dir) in dirs
                              && exists n :: Candidate(ChildrenOf(ParentDir(dir)), Base(dir), n)
      ensures near.Some? ==> exists n :: near.value == Child(ParentDir(dir), n) && Nearest(ChildrenOf(ParentDir(dir)), Base(dir), Some(n))
      ensures near.Some? && Consistent(Now()) ==> near.value in dirs
    {
      hide Similarity, ParentDir, Base;
      if dirs == {} || dir == "" || dir in dirs {
        return None;
      }
      var parent := ParentDir(dir);
      if parent !in dirs {
        return None;
      }
      var best, found := NearestSibling(ChildrenOf(parent), Base(dir));
      if found {
        assert Candidate(ChildrenOf(parent), Base(dir), best);
        return Some(Child(parent, best));
      }
      return None;
    }
  }

  lemma FaithfulIsFaithfulBut(s: Shape, pending: string)
    requires Faithful(s)
    ensures FaithfulBut(s, pending)
  {
  }

  lemma ConsistentIsConsistentBut(s: Shape, pending: string)
    requires Consistent(s)
    ensures ConsistentBut(s, pending)
  {
  }
}
