/** Grouping and ordering of diagnostics. */
module Diagnostics {
  import opened Order
  import opened Text
  import TextLaws

  datatype Diagnostic = Diagnostic(source: string, severity: string, code: string, message: string, path: string,
                                   line: int, sourceLayer: string, confidence: string, fingerprint: string, occurrences: int)

  /** The quoted part of a message, or all of it. */
  function QuotedTarget(message: string): string {
    var a := IndexOf(message, '\'');
    if a == |message| then message
    else
      var rest := message[a + 1..];
      var b := IndexOf(rest, '\'');
      if b == |rest| then message else rest[..b]
  }

  function DiagnosticFingerprint(d: Diagnostic): (r: string)
    ensures r != ""
  {
    var target := ToLower(QuotedTarget(d.message));
    if d.code == "missing_localization" || d.code == "missing_resource" || d.code == "resource_resolution_uncertain"
    then d.code + ":" + target
    else d.code + ":" + Slashed(d.path) + ":" + Itoa(d.line) + ":" + target
  }

  /** The target of a message is what stands between its first two quotes. */
  lemma QuotedTargetIs(x: string, target: string, y: string)
    requires '\'' !in x && '\'' !in target
    ensures QuotedTarget(x + ("'" + (target + ("'" + y)))) == target
    ensures QuotedTarget(x) == x && QuotedTarget(x + ("'" + target)) == x + ("'" + target)
  {
    var rest := target + ("'" + y);
    var message := x + ("'" + rest);
    assert message[..|x|] == x && message[|x|] == '\'' && message[|x| + 1..] == rest;
    IndexOfFirst(message, '\'', |x|);
    assert rest[..|target|] == target && rest[|target|] == '\'';
    IndexOfFirst(rest, '\'', |target|);
    assert IndexOf(x, '\'') == |x|;
    var open := x + ("'" + target);
    assert open[..|x|] == x && open[|x|] == '\'' && open[|x| + 1..] == target;
    IndexOfFirst(open, '\'', |x|);
    assert IndexOf(target, '\'') == |target|;
  }

  /** Codes whose findings are one wherever they occur. */
  predicate Global(code: string) {
    code in {"missing_localization", "missing_resource", "resource_resolution_uncertain"}
  }

  /** Two diagnostics have one fingerprint exactly if they have one code and one target but for case and, unless the code is
      global, one place. */
  lemma FingerprintTells(d: Diagnostic, e: Diagnostic)
    requires ':' !in d.code && ':' !in e.code && ':' !in d.path && ':' !in e.path
    ensures DiagnosticFingerprint(d) == DiagnosticFingerprint(e) <==>
            && d.code == e.code && ToLower(QuotedTarget(d.message)) == ToLower(QuotedTarget(e.message))
            && (Global(d.code) || (Slashed(d.path) == Slashed(e.path) && d.line == e.line))
  {
    hide QuotedTarget, ToLower, Slashed, Itoa;
    var s, t := ToLower(QuotedTarget(d.message)), ToLower(QuotedTarget(e.message));
    FingerprintShape(d);
    FingerprintShape(e);
    if DiagnosticFingerprint(d) == DiagnosticFingerprint(e) {
      SplitAtFirst(':', d.code, e.code, FingerprintTail(d), FingerprintTail(e));
      if !Global(d.code) {
        NoColon(d.path);
        NoColon(e.path);
        assert ':' !in Itoa(d.line) && ':' !in Itoa(e.line);
        SplitAtFirst(':', Slashed(d.path), Slashed(e.path), Itoa(d.line) + ([':'] + s), Itoa(e.line) + ([':'] + t));
        SplitAtFirst(':', Itoa(d.line), Itoa(e.line), s, t);
        TextLaws.ItoaTells(d.line, e.line);
      }
    }
  }

  function FingerprintTail(d: Diagnostic): string {
    var target := ToLower(QuotedTarget(d.message));
    if Global(d.code) then target else Slashed(d.path) + ([':'] + (Itoa(d.line) + ([':'] + target)))
  }

  lemma FingerprintShape(d: Diagnostic)
    ensures DiagnosticFingerprint(d) == d.code + ([':'] + FingerprintTail(d))
  {
    hide QuotedTarget, ToLower, Slashed, Itoa;
    var target, path, line := ToLower(QuotedTarget(d.message)), Slashed(d.path), Itoa(d.line);
    if !Global(d.code) {
      assert d.code + ":" + path + ":" + line + ":" + target == d.code + ([':'] + (path + ([':'] + (line + ([':'] + target)))));
    }
  }

  lemma NoColon(path: string)
    requires ':' !in path
    ensures ':' !in Slashed(path)
  {
    forall i | 0 <= i < |path|
      ensures Slashed(path)[i] != ':'
    {
      assert path[i] in path;
      TextLaws.SlashedAt(path, i);
    }
  }

  /** The key under which a diagnostic is grouped. */
  function Key(d: Diagnostic): (r: string)
    ensures r != ""
  {
    if d.fingerprint == "" then DiagnosticFingerprint(d) else d.fingerprint
  }

  function AtLeastOne(n: int): int {
    if n < 1 then 1 else n
  }

  function Rank(d: Diagnostic): int {
    if d.severity == "error" then 0
    else if d.confidence == "high" && (HasPrefix(d.code, "scope_") || Contains(d.code, "reference")) then 1
    else if d.code == "missing_resource" || d.code == "resource_resolution_uncertain" then 2
    else if Contains(d.code, "localization") || Contains(d.code, "_loc") then 3
    else if d.confidence == "low" || Contains(d.code, "uncertain") then 5
    else 4
  }

  ghost predicate Has(code: string, part: string) {
    exists a: string, b: string :: code == a + part + b
  }

  /** Errors come first; then what is surely wrong in scopes and references, missing resources, texts, the rest, and last what is
      uncertain. */
  lemma RankMeans(d: Diagnostic)
    ensures 0 <= Rank(d) <= 5 && (Rank(d) == 0 <==> d.severity == "error")
    ensures var sure := d.confidence == "high" && ("scope_" <= d.code || Has(d.code, "reference"));
            var missing := d.code in {"missing_resource", "resource_resolution_uncertain"};
            var text := Has(d.code, "localization") || Has(d.code, "_loc");
            var doubtful := d.confidence == "low" || Has(d.code, "uncertain");
            && (Rank(d) == 1 <==> d.severity != "error" && sure)
            && (Rank(d) == 2 <==> d.severity != "error" && !sure && missing)
            && (Rank(d) == 3 <==> d.severity != "error" && !sure && !missing && text)
            && (Rank(d) == 4 <==> d.severity != "error" && !sure && !missing && !text && !doubtful)
            && (Rank(d) == 5 <==> d.severity != "error" && !sure && !missing && !text && doubtful)
  {
    hide Contains;
    HasIff(d.code, "reference");
    HasIff(d.code, "localization");
    HasIff(d.code, "_loc");
    HasIff(d.code, "uncertain");
  }

  lemma HasIff(code: string, part: string)
    ensures Contains(code, part) <==> Has(code, part)
  {
    TextLaws.ContainsIff(code, part);
  }

  /** Rank, then code, path and line. */
  predicate ReportLeq(a: Diagnostic, b: Diagnostic) {
    if Rank(a) != Rank(b) then Rank(a) < Rank(b)
    else if a.code != b.code then Leq(a.code, b.code)
    else if a.path != b.path then Leq(a.path, b.path)
    else a.line <= b.line
  }

  function SeverityOrder(severity: string): int {
    if severity == "error" then 0 else if severity == "warning" then 1 else 2
  }

  /** Errors before warnings before all else. */
  lemma SeverityMeans(a: string, b: string)
    ensures SeverityOrder(a) < SeverityOrder(b) <==> (a == "error" && b != "error") || (a == "warning" && b !in {"error", "warning"})
  {
  }

  predicate FromProject(project: string, d: Diagnostic) {
    ToLower(d.sourceLayer) == ToLower(project)
  }

  /** Severity, then the project's own layer first. */
  predicate PriorityLeq(project: string, a: Diagnostic, b: Diagnostic) {
    if SeverityOrder(a.severity) != SeverityOrder(b.severity) then SeverityOrder(a.severity) < SeverityOrder(b.severity)
    else FromProject(project, b) ==> FromProject(project, a)
  }

  /** Severity first, then the findings of the project's own layer, which is told by its name in any case. */
  lemma PriorityMeans(project: string, a: Diagnostic, b: Diagnostic)
    ensures FromProject(project, a) <==>
            |a.sourceLayer| == |project| && forall i :: 0 <= i < |project| ==>
              || a.sourceLayer[i] == project[i] || TextLaws.CasePair(a.sourceLayer[i], project[i]) || TextLaws.CasePair(project[i], a.sourceLayer[i])
    ensures PriorityLeq(project, a, b) <==>
            || SeverityOrder(a.severity) < SeverityOrder(b.severity)
            || (SeverityOrder(a.severity) == SeverityOrder(b.severity) && (FromProject(project, a) || !FromProject(project, b)))
  {
    TextLaws.SameButCase(a.sourceLayer, project);
  }

  function ByPriority(project: string): (Diagnostic, Diagnostic) -> bool {
    (a, b) => PriorityLeq(project, a, b)
  }

  lemma ReportOrder()
    ensures Total(ReportLeq) && Transitive(ReportLeq)
  {
    hide Rank, Leq;
    LeqOrder();
    forall a, b
      ensures ReportLeq(a, b) || ReportLeq(b, a)
    {
      LeqTotal(a.code, b.code);
      LeqTotal(a.path, b.path);
    }
    forall a, b, c | ReportLeq(a, b) && ReportLeq(b, c)
      ensures ReportLeq(a, c)
    {
      ReportTransitive(a, b, c);
    }
  }

  lemma ReportTransitive(a: Diagnostic, b: Diagnostic, c: Diagnostic)
    requires ReportLeq(a, b) && ReportLeq(b, c)
    ensures ReportLeq(a, c)
  {
    hide Rank, Leq;
    if Rank(a) == Rank(b) == Rank(c) {
      if Leq(a.code, b.code) && Leq(b.code, c.code) {
        LeqTransitive(a.code, b.code, c.code);
        if a.code == c.code {
          LeqAntisymmetric(a.code, b.code);
        }
      }
      if Leq(a.path, b.path) && Leq(b.path, c.path) {
        LeqTransitive(a.path, b.path, c.path);
        if a.path == c.path {
          LeqAntisymmetric(a.path, b.path);
        }
      }
    }
  }

  lemma PriorityOrder(project: string)
    ensures Total(ByPriority(project)) && Transitive(ByPriority(project))
  {
  }

  /** The position of the group with a key, or the length. */
  function Find(groups: seq<Diagnostic>, key: string): (i: nat)
    ensures i <= |groups| && (i < |groups| ==> groups[i].fingerprint == key)
    ensures forall j :: 0 <= j < i ==> groups[j].fingerprint != key
  {
    if groups == [] || groups[0].fingerprint == key then 0 else 1 + Find(groups[1..], key)
  }

  /** One more diagnostic joins its group or opens a new one. */
  function Join(groups: seq<Diagnostic>, d: Diagnostic): seq<Diagnostic> {
    var key := Key(d);
    var i := Find(groups, key);
    if i < |groups| then groups[i := groups[i].(occurrences := groups[i].occurrences + AtLeastOne(d.occurrences))]
    else groups + [d.(fingerprint := key, occurrences := AtLeastOne(d.occurrences))]
  }

  function Grouped(diagnostics: seq<Diagnostic>): seq<Diagnostic> {
    if diagnostics == [] then []
    else Join(Grouped(diagnostics[..|diagnostics| - 1]), diagnostics[|diagnostics| - 1])
  }

  function Aggregated(diagnostics: seq<Diagnostic>): seq<Diagnostic> {
    SortBy(Grouped(diagnostics), ReportLeq)
  }

  function Prioritized(diagnostics: seq<Diagnostic>, project: string): seq<Diagnostic> {
    if TrimSpace(project) == "" then diagnostics
    else SortBy(diagnostics, ByPriority(project))
  }

  /** The index of groups says where each key was first placed. */
  ghost predicate Indexes(index: map<string, nat>, groups: seq<Diagnostic>) {
    && (forall key {:trigger key in index} :: key in index <==> Find(groups, key) < |groups|)
    && (forall key {:trigger index[key]} :: key in index ==> index[key] == Find(groups, key))
  }

  lemma GroupedNext(diagnostics: seq<Diagnostic>, k: nat)
    requires k < |diagnostics|
    ensures Grouped(diagnostics[..k + 1]) == Join(Grouped(diagnostics[..k]), diagnostics[k])
  {
    assert diagnostics[..k + 1][..k] == diagnostics[..k];
  }

  lemma IndexedUpdate(index: map<string, nat>, groups: seq<Diagnostic>, i: nat, d: Diagnostic)
    requires Indexes(index, groups) && i < |groups| && d.fingerprint == groups[i].fingerprint
    ensures Indexes(index, groups[i := d])
  {
    FindUpdated(groups, i, d);
  }

  lemma IndexedAppend(index: map<string, nat>, groups: seq<Diagnostic>, d: Diagnostic)
    requires Indexes(index, groups) && d.fingerprint !in index
    ensures Indexes(index[d.fingerprint := |groups|], groups + [d])
  {
    FindAppended(groups, d);
    assert Find(groups, d.fingerprint) == |groups|;
  }

  lemma JoinByIndex(index: map<string, nat>, groups: seq<Diagnostic>, d: Diagnostic)
    requires Indexes(index, groups)
    ensures Key(d) in index ==>
              index[Key(d)] < |groups| && groups[index[Key(d)]].fingerprint == Key(d) &&
              Join(groups, d) == groups[index[Key(d)] := groups[index[Key(d)]].(
                                   occurrences := groups[index[Key(d)]].occurrences + AtLeastOne(d.occurrences))]
    ensures Key(d) !in index ==>
              Join(groups, d) == groups + [d.(fingerprint := Key(d), occurrences := AtLeastOne(d.occurrences))]
  {
  }

  /** One diagnostic: counted in its group if the index knows the key, else a new group at the end. */
  method Place(groups: seq<Diagnostic>, index: map<string, nat>, diagnostic: Diagnostic) returns (out: seq<Diagnostic>, index': map<string, nat>)
    requires Indexes(index, groups)
    ensures out == Join(groups, diagnostic) && Indexes(index', out)
  {
    hide DiagnosticFingerprint, Find, Join, Indexes;
    JoinByIndex(index, groups, diagnostic);
    var d := diagnostic;
    var key := d.fingerprint;
    if key == "" {
      key := DiagnosticFingerprint(d);
      d := d.(fingerprint := key);
    }
    assert key == Key(diagnostic);
    index' := index;
    if key in index {
      var i := index[key];
      var more := groups[i].(occurrences := groups[i].occurrences + AtLeastOne(d.occurrences));
      IndexedUpdate(index, groups, i, more);
      out := groups[i := more];
      return;
    }
    if d.occurrences < 1 {
      d := d.(occurrences := 1);
    }
    IndexedAppend(index, groups, d);
    index' := index[key := |groups|];
    out := groups + [d];
  }

  /** The loop over the diagnostics with its index of groups by key, then the stable sort. */
  method AggregateDiagnostics(diagnostics: seq<Diagnostic>) returns (out: seq<Diagnostic>)
    ensures out == Aggregated(diagnostics)
  {
    var index: map<string, nat> := map[];
    out := [];
    for k := 0 to |diagnostics|
      invariant out == Grouped(diagnostics[..k]) && Indexes(index, out)
    {
      hide DiagnosticFingerprint, Grouped, Find, Join, Indexes;
      GroupedNext(diagnostics, k);
      out, index := Place(out, index, diagnostics[k]);
    }
    assert diagnostics[..|diagnostics|] == diagnostics;
    out := SortBy(out, ReportLeq);
  }

  lemma {:induction false} FindUpdated(groups: seq<Diagnostic>, i: nat, d: Diagnostic)
    requires i < |groups| && d.fingerprint == groups[i].fingerprint
    ensures forall key :: Find(groups[i := d], key) == Find(groups, key)
  {
    if i > 0 {
      FindUpdated(groups[1..], i - 1, d);
      assert groups[i := d][1..] == groups[1..][i - 1 := d];
    } else {
      assert groups[i := d][1..] == groups[1..];
    }
  }

  lemma {:induction false} FindAppended(groups: seq<Diagnostic>, d: Diagnostic)
    ensures forall key :: Find(groups + [d], key) ==
              if Find(groups, key) < |groups| then Find(groups, key)
              else if key == d.fingerprint then |groups| else |groups| + 1
  {
    if groups == [] {
      assert groups + [d] == [d];
      assert forall key :: Find([d], key) == (if key == d.fingerprint then 0 else 1 + Find([], key)) by {
        assert [d][1..] == [];
      }
    } else {
      FindAppended(groups[1..], d);
      assert (groups + [d])[1..] == groups[1..] + [d];
    }
  }

  ghost function TotalOccurrences(diagnostics: seq<Diagnostic>): int {
    if diagnostics == [] then 0
    else TotalOccurrences(diagnostics[..|diagnostics| - 1]) + AtLeastOne(diagnostics[|diagnostics| - 1].occurrences)
  }

  /** The occurrences of the diagnostics with one key. */
  ghost function ClassTotal(diagnostics: seq<Diagnostic>, key: string): int {
    if diagnostics == [] then 0
    else
      var last := diagnostics[|diagnostics| - 1];
      ClassTotal(diagnostics[..|diagnostics| - 1], key) + if Key(last) == key then AtLeastOne(last.occurrences) else 0
  }

  /** The first diagnostic with a key is at position i. */
  ghost predicate FirstOf(diagnostics: seq<Diagnostic>, key: string, i: nat) {
    i < |diagnostics| && Key(diagnostics[i]) == key && forall j :: 0 <= j < i ==> Key(diagnostics[j]) != key
  }

  /** g is the group of its key: its first member, with the occurrences of all. */
  ghost predicate GroupOf(diagnostics: seq<Diagnostic>, g: Diagnostic) {
    exists i: nat :: FirstOf(diagnostics, g.fingerprint, i) &&
                g == diagnostics[i].(fingerprint := g.fingerprint, occurrences := ClassTotal(diagnostics, g.fingerprint))
  }

  ghost predicate KeyPresent(diagnostics: seq<Diagnostic>, key: string) {
    exists i :: 0 <= i < |diagnostics| && Key(diagnostics[i]) == key
  }

  /** What the grouping promises, with nothing said about order. */
  ghost predicate IsGrouping(diagnostics: seq<Diagnostic>, groups: seq<Diagnostic>) {
    && (forall i, j :: 0 <= i < j < |groups| ==> groups[i].fingerprint != groups[j].fingerprint)
    && (forall g :: g in groups ==> GroupOf(diagnostics, g))
    && (forall key :: KeyPresent(diagnostics, key) ==> exists g :: g in groups && g.fingerprint == key)
  }

  lemma {:induction false} ClassTotalPositive(diagnostics: seq<Diagnostic>, key: string)
    ensures ClassTotal(diagnostics, key) >= 0
    ensures KeyPresent(diagnostics, key) <==> ClassTotal(diagnostics, key) >= 1
  {
    if diagnostics != [] {
      var rest, last := diagnostics[..|diagnostics| - 1], diagnostics[|diagnostics| - 1];
      ClassTotalPositive(rest, key);
      if KeyPresent(rest, key) {
        var i :| 0 <= i < |rest| && Key(rest[i]) == key;
        assert Key(diagnostics[i]) == key;
      }
      if Key(last) == key {
        assert Key(diagnostics[|diagnostics| - 1]) == key;
      }
      if i :| 0 <= i < |diagnostics| && Key(diagnostics[i]) == key && Key(last) != key {
        assert Key(rest[i]) == key;
      }
    }
  }

  lemma GroupStays(rest: seq<Diagnostic>, d: Diagnostic, g: Diagnostic)
    requires GroupOf(rest, g)
    ensures GroupOf(rest + [d], if Key(d) == g.fingerprint then g.(occurrences := g.occurrences + AtLeastOne(d.occurrences)) else g)
  {
    var i: nat :| FirstOf(rest, g.fingerprint, i) &&
             g == rest[i].(fingerprint := g.fingerprint, occurrences := ClassTotal(rest, g.fingerprint));
    var all := rest + [d];
    assert all[..|all| - 1] == rest;
    assert FirstOf(all, g.fingerprint, i);
    assert all[i] == rest[i];
  }

  lemma GroupStarts(rest: seq<Diagnostic>, d: Diagnostic)
    requires !KeyPresent(rest, Key(d))
    ensures GroupOf(rest + [d], d.(fingerprint := Key(d), occurrences := AtLeastOne(d.occurrences)))
  {
    var all := rest + [d];
    assert all[..|all| - 1] == rest && all[|rest|] == d;
    ClassTotalPositive(rest, Key(d));
    forall j | 0 <= j < |rest|
      ensures Key(all[j]) != Key(d)
    {
      assert all[j] == rest[j];
    }
    assert FirstOf(all, Key(d), |rest|);
  }

  lemma {:induction false} GroupedIsGrouping(diagnostics: seq<Diagnostic>)
    ensures IsGrouping(diagnostics, Grouped(diagnostics))
  {
    if diagnostics != [] {
      var rest, d := diagnostics[..|diagnostics| - 1], diagnostics[|diagnostics| - 1];
      assert diagnostics == rest + [d];
      GroupedIsGrouping(rest);
      JoinIsGrouping(rest, Grouped(rest), d);
    }
  }

  lemma JoinIsGrouping(rest: seq<Diagnostic>, groups: seq<Diagnostic>, d: Diagnostic)
    requires IsGrouping(rest, groups)
    ensures IsGrouping(rest + [d], Join(groups, d))
  {
    hide GroupOf, KeyPresent, Key, Find;
    var all, joined, i := rest + [d], Join(groups, d), Find(groups, Key(d));
    forall g | g in joined
      ensures GroupOf(all, g)
    {
      var k :| 0 <= k < |joined| && joined[k] == g;
      if k < |groups| {
        assert groups[k] in groups;
        GroupStays(rest, d, groups[k]);
        if Key(d) == groups[k].fingerprint {
          assert k == i;
        }
      } else {
        NotPresent(rest, groups, Key(d));
        GroupStarts(rest, d);
      }
    }
    forall key | KeyPresent(all, key)
      ensures exists g :: g in joined && g.fingerprint == key
    {
      PresentBefore(rest, d, key);
      if key == Key(d) {
        assert joined[if i < |groups| then i else |groups|].fingerprint == key;
      } else {
        var g :| g in groups && g.fingerprint == key;
        var k :| 0 <= k < |groups| && groups[k] == g;
        assert joined[k].fingerprint == key;
      }
    }
  }

  lemma NotPresent(rest: seq<Diagnostic>, groups: seq<Diagnostic>, key: string)
    requires IsGrouping(rest, groups) && Find(groups, key) == |groups|
    ensures !KeyPresent(rest, key)
  {
  }

  lemma PresentBefore(rest: seq<Diagnostic>, d: Diagnostic, key: string)
    requires KeyPresent(rest + [d], key)
    ensures key == Key(d) || KeyPresent(rest, key)
  {
    var i :| 0 <= i < |rest + [d]| && Key((rest + [d])[i]) == key;
    if i < |rest| {
      assert (rest + [d])[i] == rest[i];
    }
  }

  /** The aggregate is a grouping in report order. */
  lemma AggregatedIsSortedGrouping(diagnostics: seq<Diagnostic>)
    ensures IsGrouping(diagnostics, Aggregated(diagnostics)) && SortedBy(Aggregated(diagnostics), ReportLeq)
  {
    GroupedIsGrouping(diagnostics);
    ReportOrder();
    SortBySorts(Grouped(diagnostics), ReportLeq);
    GroupingPermuted(diagnostics, Grouped(diagnostics), Aggregated(diagnostics));
  }

  lemma GroupingPermuted(diagnostics: seq<Diagnostic>, a: seq<Diagnostic>, b: seq<Diagnostic>)
    requires IsGrouping(diagnostics, a) && multiset(a) == multiset(b)
    ensures IsGrouping(diagnostics, b)
  {
    hide GroupOf, KeyPresent;
    MultisetMembers(a, b);
    assert Distinct(a);
    DistinctPermutation(a, b);
    forall i, j | 0 <= i < j < |b|
      ensures b[i].fingerprint != b[j].fingerprint
    {
      assert b[i] in a && b[j] in a && b[i] != b[j];
      var k :| 0 <= k < |a| && a[k] == b[i];
      var m :| 0 <= m < |a| && a[m] == b[j];
    }
  }

  lemma {:induction false} TotalOfUpdate(groups: seq<Diagnostic>, i: nat, d: Diagnostic)
    requires i < |groups|
    ensures TotalOccurrences(groups[i := d]) == TotalOccurrences(groups) - AtLeastOne(groups[i].occurrences) + AtLeastOne(d.occurrences)
  {
    var n := |groups| - 1;
    if i == n {
      assert groups[i := d][..n] == groups[..n];
    } else {
      assert groups[i := d][..n] == groups[..n][i := d];
      TotalOfUpdate(groups[..n], i, d);
    }
  }

  lemma {:induction false} GroupedTotal(diagnostics: seq<Diagnostic>)
    ensures TotalOccurrences(Grouped(diagnostics)) == TotalOccurrences(diagnostics)
    ensures forall g :: g in Grouped(diagnostics) ==> g.occurrences >= 1 && g.fingerprint != ""
  {
    if diagnostics != [] {
      var rest, d := diagnostics[..|diagnostics| - 1], diagnostics[|diagnostics| - 1];
      GroupedTotal(rest);
      JoinTotal(Grouped(rest), d);
    }
  }

  lemma JoinTotal(groups: seq<Diagnostic>, d: Diagnostic)
    requires forall g :: g in groups ==> g.occurrences >= 1 && g.fingerprint != ""
    ensures TotalOccurrences(Join(groups, d)) == TotalOccurrences(groups) + AtLeastOne(d.occurrences)
    ensures forall g :: g in Join(groups, d) ==> g.occurrences >= 1 && g.fingerprint != ""
  {
    hide Key, Find;
    var i := Find(groups, Key(d));
    if i < |groups| {
      assert groups[i] in groups;
      TotalOfUpdate(groups, i, groups[i].(occurrences := groups[i].occurrences + AtLeastOne(d.occurrences)));
    } else {
      assert Join(groups, d)[..|groups|] == groups;
    }
  }

  lemma CancelOne<T>(a: multiset<T>, b: multiset<T>, x: T)
    requires a + multiset{x} == b + multiset{x}
    ensures a == b
  {
    forall y
      ensures a[y] == b[y]
    {
      assert (a + multiset{x})[y] == (b + multiset{x})[y];
    }
  }

  lemma MultisetWithout<T>(s: seq<T>, k: nat)
    requires k < |s|
    ensures multiset(s) == multiset(s[..k] + s[k + 1..]) + multiset{s[k]}
  {
    assert s == s[..k] + [s[k]] + s[k + 1..];
  }

  /** The total does not depend on the order. */
  lemma {:induction false} TotalPermuted(a: seq<Diagnostic>, b: seq<Diagnostic>)
    requires multiset(a) == multiset(b)
    ensures TotalOccurrences(a) == TotalOccurrences(b)
    decreases |a|
  {
    assert |multiset(a)| == |a| && |multiset(b)| == |b|;
    if a != [] {
      hide TotalOccurrences;
      var last := a[|a| - 1];
      assert last in multiset(b);
      var k :| 0 <= k < |b| && b[k] == last;
      MultisetWithout(a, |a| - 1);
      MultisetWithout(b, k);
      var c, d := a[..|a| - 1] + a[|a| - 1 + 1..], b[..k] + b[k + 1..];
      CancelOne(multiset(c), multiset(d), last);
      TotalPermuted(c, d);
      TotalWithout(a, |a| - 1);
      TotalWithout(b, k);
    }
  }

  lemma {:induction false} TotalWithout(b: seq<Diagnostic>, k: nat)
    requires k < |b|
    ensures TotalOccurrences(b) == TotalOccurrences(b[..k] + b[k + 1..]) + AtLeastOne(b[k].occurrences)
  {
    var n := |b| - 1;
    if k == n {
      assert b[..k] + b[k + 1..] == b[..n];
    } else {
      TotalWithout(b[..n], k);
      var c := b[..k] + b[k + 1..];
      assert c[..|c| - 1] == b[..n][..k] + b[..n][k + 1..] && c[|c| - 1] == b[n];
    }
  }

  /** Aggregation neither loses nor invents occurrences. */
  lemma AggregationConserves(diagnostics: seq<Diagnostic>)
    ensures TotalOccurrences(Aggregated(diagnostics)) == TotalOccurrences(diagnostics)
  {
    GroupedTotal(diagnostics);
    TotalPermuted(Grouped(diagnostics), Aggregated(diagnostics));
  }

  lemma {:induction false} GroupedIdentity(groups: seq<Diagnostic>)
    requires forall i, j :: 0 <= i < j < |groups| ==> groups[i].fingerprint != groups[j].fingerprint
    requires forall g :: g in groups ==> g.occurrences >= 1 && g.fingerprint != ""
    ensures Grouped(groups) == groups
  {
    if groups != [] {
      var n := |groups| - 1;
      GroupedIdentity(groups[..n]);
      assert groups[n] in groups;
      assert Find(groups[..n], groups[n].fingerprint) == n;
      assert groups == groups[..n] + [groups[n]];
    }
  }

  /** Aggregating an aggregate changes nothing. */
  lemma AggregationIsIdempotent(diagnostics: seq<Diagnostic>)
    ensures Aggregated(Aggregated(diagnostics)) == Aggregated(diagnostics)
  {
    var once := Aggregated(diagnostics);
    AggregatedIsSortedGrouping(diagnostics);
    GroupedTotal(diagnostics);
    MultisetMembers(Grouped(diagnostics), once);
    GroupedIdentity(once);
    SortByIdentity(once, ReportLeq);
  }

  /** The two stable sorts together: severity, then project first, then rank, code, path and line. */
  /** In one class: by rank, then code, path and line. */
  ghost predicate ReportedBefore(a: Diagnostic, b: Diagnostic) {
    || Rank(a) < Rank(b)
    || (Rank(a) == Rank(b) && Less(a.code, b.code))
    || (Rank(a) == Rank(b) && a.code == b.code && Less(a.path, b.path))
    || (Rank(a) == Rank(b) && a.code == b.code && a.path == b.path && a.line <= b.line)
  }

  /** In a report: by severity, the project's own layer first, and then so. */
  ghost predicate ListedBefore(project: string, a: Diagnostic, b: Diagnostic) {
    || SeverityOrder(a.severity) < SeverityOrder(b.severity)
    || (SeverityOrder(a.severity) == SeverityOrder(b.severity) && FromProject(project, a) && !FromProject(project, b))
    || (SeverityOrder(a.severity) == SeverityOrder(b.severity) && FromProject(project, a) == FromProject(project, b) && ReportedBefore(a, b))
  }

  lemma InReportOrder(diagnostics: seq<Diagnostic>, project: string)
    ensures var r := Aggregated(diagnostics); forall i, j :: 0 <= i < j < |r| ==> ReportedBefore(r[i], r[j])
    ensures var r := Prioritized(Aggregated(diagnostics), project);
            TrimSpace(project) != "" ==> forall i, j :: 0 <= i < j < |r| ==> ListedBefore(project, r[i], r[j])
  {
    hide Rank, Leq, SeverityOrder, FromProject, Aggregated, Prioritized;
    AggregatedIsSortedGrouping(diagnostics);
    if TrimSpace(project) != "" {
      ReportOrderComposes(diagnostics, project);
      var r := Prioritized(Aggregated(diagnostics), project);
      forall i, j | 0 <= i < j < |r|
        ensures ListedBefore(project, r[i], r[j])
      {
        assert LexLeq(ByPriority(project), ReportLeq, r[i], r[j]);
      }
    }
  }

  lemma ReportOrderComposes(diagnostics: seq<Diagnostic>, project: string)
    requires TrimSpace(project) != ""
    ensures LexSorted(Prioritized(Aggregated(diagnostics), project), ByPriority(project), ReportLeq)
    ensures IsGrouping(diagnostics, Prioritized(Aggregated(diagnostics), project))
  {
    AggregatedIsSortedGrouping(diagnostics);
    PriorityOrder(project);
    StableSortComposes(Aggregated(diagnostics), ByPriority(project), ReportLeq);
    GroupingPermuted(diagnostics, Aggregated(diagnostics), Prioritized(Aggregated(diagnostics), project));
  }
}
