/** Which walked files a full scan hides: those with the relative path of a better-ranked one, and those under a replaced path. */
module Overrides {
  import opened Order
  import opened Text
  import opened Wrappers

  /** A source layer; a lower rank takes precedence. */
  datatype Source = Source(name: string, rank: int)

  /** A walked file. `content` stands for its hash as well; `force` asks for a new parse whatever the hash, and `untouched`
      says that the recorded size and time still hold and may be trusted. */
  datatype FileJob = FileJob(source: Source, path: string, rel: string, kind: string, content: string, force: bool, untouched: bool)

  /** Why a file is hidden, by which source and which rule. */
  datatype Evidence = Visible | Hidden(reason: string, bySource: string, byRank: int, rule: string)

  const SAME_PATH := "same_relative_path"
  const REPLACED := "descriptor_replace_path"

  /** w is the best-ranked source that has the relative path. */
  ghost predicate Wins(jobs: seq<FileJob>, rel: string, w: Source) {
    && (exists j :: j in jobs && j.rel == rel && j.source == w)
    && forall j :: j in jobs && j.rel == rel ==> w.rank <= j.source.rank
  }

  ghost predicate Beaten(jobs: seq<FileJob>, job: FileJob) {
    exists j :: j in jobs && j.rel == job.rel && j.source.rank < job.source.rank
  }

  predicate Under(rel: string, prefix: string) {
    rel == prefix || HasPrefix(rel, prefix + "/")
  }

  /** A rule covers its own path and everything below it, but no neighbour whose name merely starts alike. */
  lemma UnderIff(rel: string, prefix: string)
    ensures Under(rel, prefix) <==> rel == prefix || exists rest: string :: rel == prefix + "/" + rest
  {
    if HasPrefix(rel, prefix + "/") {
      assert rel == prefix + "/" + rel[|prefix| + 1..];
    }
    if rest: string :| rel == prefix + "/" + rest {
      assert rel[..|prefix + "/"|] == prefix + "/";
    }
  }

  /** A better-ranked source has a rule that replaces the path. */
  predicate Replaces(rules: map<int, seq<string>>, rel: string, rank: int, owner: int, rule: string) {
    owner in rules && owner < rank && rule in rules[owner] && Under(ToLower(rel), rule)
  }

  /** Of all rules that replace the path one of the best rank, and of those a longest one. */
  ghost predicate BestRule(rules: map<int, seq<string>>, rel: string, rank: int, owner: int, rule: string) {
    Replaces(rules, rel, rank, owner, rule) &&
    forall b, x :: Replaces(rules, rel, rank, b, x) ==> Before(owner, rule, b, x)
  }

  predicate Before(owner: int, rule: string, b: int, x: string) {
    owner < b || (owner == b && |x| <= |rule|)
  }

  ghost predicate AnyRule(rules: map<int, seq<string>>, rel: string, rank: int) {
    exists owner, rule :: Replaces(rules, rel, rank, owner, rule)
  }

  function NameAt(names: map<int, string>, rank: int): string {
    if rank in names then names[rank] else ""
  }

  ghost predicate BeatenBy(jobs: seq<FileJob>, job: FileJob, e: Evidence, w: Source) {
    Wins(jobs, job.rel, w) && e == Hidden("same_relative_path", w.name, w.rank, job.rel)
  }

  ghost predicate ReplacedBy(rules: map<int, seq<string>>, names: map<int, string>, job: FileJob, e: Evidence, owner: int, rule: string) {
    BestRule(rules, job.rel, job.source.rank, owner, rule) && e == Hidden("descriptor_replace_path", NameAt(names, owner), owner, rule)
  }

  /** What the override pass is to say of a file. */
  ghost predicate Judged(jobs: seq<FileJob>, rules: map<int, seq<string>>, names: map<int, string>, job: FileJob, e: Evidence) {
    if Beaten(jobs, job) then exists w :: BeatenBy(jobs, job, e, w)
    else if AnyRule(rules, job.rel, job.source.rank) then exists owner, rule :: ReplacedBy(rules, names, job, e, owner, rule)
    else e == Visible
  }

  ghost predicate AllJudged(jobs: seq<FileJob>, rules: map<int, seq<string>>, names: map<int, string>, evidence: seq<Evidence>) {
    |evidence| == |jobs| && forall i :: 0 <= i < |jobs| ==> Judged(jobs, rules, names, jobs[i], evidence[i])
  }

  /** No two sources share a rank. */
  ghost predicate Ranked(jobs: seq<FileJob>) {
    forall a, b :: a in jobs && b in jobs && a.source.rank == b.source.rank ==> a.source == b.source
  }

  lemma WinnerUnique(jobs: seq<FileJob>, rel: string, v: Source, w: Source)
    requires Ranked(jobs) && Wins(jobs, rel, v) && Wins(jobs, rel, w)
    ensures v == w
  {
  }

  lemma RuleUnique(rules: map<int, seq<string>>, rel: string, rank: int, owner: int, rule: string, b: int, x: string)
    requires BestRule(rules, rel, rank, owner, rule) && BestRule(rules, rel, rank, b, x)
    ensures owner == b && rule == x
  {
    assert Before(owner, rule, b, x) && Before(b, x, owner, rule);
    UnderIsPrefix(ToLower(rel), rule);
    UnderIsPrefix(ToLower(rel), x);
  }

  lemma UnderIsPrefix(rel: string, prefix: string)
    requires Under(rel, prefix)
    ensures |prefix| <= |rel| && rel[..|prefix|] == prefix
  {
    if rel != prefix {
      assert rel[..|prefix + "/"|][..|prefix|] == prefix;
    }
  }

  /** The verdict on a file does not depend on the order of the files or on that in which a map hands over its keys. */
  lemma EvidenceUnique(jobs: seq<FileJob>, rules: map<int, seq<string>>, names: map<int, string>, job: FileJob, d: Evidence, e: Evidence)
    requires Ranked(jobs) && Judged(jobs, rules, names, job, d) && Judged(jobs, rules, names, job, e)
    ensures d == e
  {
    hide BestRule, Wins, Ranked;
    if Beaten(jobs, job) {
      var v :| BeatenBy(jobs, job, d, v);
      var w :| BeatenBy(jobs, job, e, w);
      WinnerUnique(jobs, job.rel, v, w);
    } else if AnyRule(rules, job.rel, job.source.rank) {
      var owner, rule :| ReplacedBy(rules, names, job, d, owner, rule);
      var b, x :| ReplacedBy(rules, names, job, e, b, x);
      RuleUnique(rules, job.rel, job.source.rank, owner, rule, b, x);
    }
  }

  /** Of all files with one relative path at most those of one source stay visible. */
  lemma OneVisible(jobs: seq<FileJob>, rules: map<int, seq<string>>, names: map<int, string>, a: FileJob, b: FileJob)
    requires Ranked(jobs) && a in jobs && b in jobs && a.rel == b.rel
    requires Judged(jobs, rules, names, a, Visible) && Judged(jobs, rules, names, b, Visible)
    ensures a.source == b.source
  {
    assert !Beaten(jobs, a) && !Beaten(jobs, b);
  }

  /** The best-ranked source of every relative path. */
  method OverrideWinners(jobs: seq<FileJob>) returns (winners: map<string, Source>)
    ensures forall j :: j in jobs ==> j.rel in winners
    ensures forall rel :: rel in winners ==> Wins(jobs, rel, winners[rel])
  {
    winners := map[];
    for i := 0 to |jobs|
      invariant forall j :: j in jobs[..i] ==> j.rel in winners
      invariant forall rel :: rel in winners ==> Wins(jobs[..i], rel, winners[rel])
    {
      var job := jobs[i];
      ghost var was := winners;
      if job.rel !in winners || job.source.rank < winners[job.rel].rank {
        winners := winners[job.rel := job.source];
      }
      assert jobs[..i + 1] == jobs[..i] + [job];
      forall rel | rel in winners
        ensures Wins(jobs[..i + 1], rel, winners[rel])
      {
        WinsNext(jobs[..i], job, rel, if rel in was then Some(was[rel]) else None, winners[rel]);
      }
    }
    assert jobs[..|jobs|] == jobs;
  }

  lemma WinsNext(jobs: seq<FileJob>, job: FileJob, rel: string, was: Option<Source>, w: Source)
    requires was.Some? ==> Wins(jobs, rel, was.value)
    requires was.None? ==> forall j :: j in jobs ==> j.rel != rel
    requires rel != job.rel ==> was == Some(w)
    requires rel == job.rel ==> w == if was.None? || job.source.rank < was.value.rank then job.source else was.value
    ensures Wins(jobs + [job], rel, w)
  {
    assert job in jobs + [job];
    if was == Some(w) {
      var j :| j in jobs && j.rel == rel && j.source == w;
      assert j in jobs + [job];
    }
  }

  /** The rule that hides a path, whatever the order of the ranks. */
  method ReplacePathEvidence(rel: string, rank: int, rules: map<int, seq<string>>) returns (owner: int, rule: string, found: bool)
    requires forall r :: r in rules ==> r > 0
    ensures if found then BestRule(rules, rel, rank, owner, rule) else !AnyRule(rules, rel, rank)
  {
    owner, rule := 0, "";
    var rest := rules.Keys;
    while rest != {}
      invariant rest <= rules.Keys
      invariant owner != 0 ==> Replaces(rules, rel, rank, owner, rule)
      invariant forall b, x {:trigger Replaces(rules, rel, rank, b, x)} :: b !in rest && Replaces(rules, rel, rank, b, x) ==>
                  owner != 0 && Before(owner, rule, b, x)
      decreases rest
    {
      var r := AnyOf(rest);
      var paths := rules[r];
      if r < rank {
        for k := 0 to |paths|
          invariant owner != 0 ==> Replaces(rules, rel, rank, owner, rule)
          invariant forall b, x {:trigger Replaces(rules, rel, rank, b, x)} ::
                      (b !in rest || (b == r && x in paths[..k])) && Replaces(rules, rel, rank, b, x) ==> owner != 0 && Before(owner, rule, b, x)
        {
          var prefix := paths[k];
          if Under(ToLower(rel), prefix) {
            if owner == 0 || r < owner || (r == owner && |prefix| > |rule|) {
              owner, rule := r, prefix;
            }
          }
        }
        assert paths[..|paths|] == paths;
      }
      rest := rest - {r};
    }
    found := owner != 0;
  }

  /** The override pass over all walked files. */
  method OverridePass(jobs: seq<FileJob>, rules: map<int, seq<string>>, names: map<int, string>) returns (evidence: seq<Evidence>)
    requires forall r :: r in rules ==> r > 0
    ensures AllJudged(jobs, rules, names, evidence)
  {
    hide BestRule, Replaces, AnyRule;
    var winners := OverrideWinners(jobs);
    evidence := [];
    for i := 0 to |jobs|
      invariant |evidence| == i
      invariant forall k :: 0 <= k < i ==> Judged(jobs, rules, names, jobs[k], evidence[k])
    {
      var job := jobs[i];
      var winner := winners[job.rel];
      var e: Evidence;
      BeatenIff(jobs, job, winner);
      if job.source.rank > winner.rank {
        e := Hidden(SAME_PATH, winner.name, winner.rank, job.rel);
        assert BeatenBy(jobs, job, e, winner);
      } else {
        var owner, rule, found := ReplacePathEvidence(job.rel, job.source.rank, rules);
        e := if found then Hidden(REPLACED, NameAt(names, owner), owner, rule) else Visible;
        assert found ==> ReplacedBy(rules, names, job, e, owner, rule);
        if found {
          BestIsAny(rules, job.rel, job.source.rank, owner, rule);
        }
      }
      evidence := evidence + [e];
    }
  }

  lemma BestIsAny(rules: map<int, seq<string>>, rel: string, rank: int, owner: int, rule: string)
    requires BestRule(rules, rel, rank, owner, rule)
    ensures AnyRule(rules, rel, rank)
  {
  }

  lemma BeatenIff(jobs: seq<FileJob>, job: FileJob, winner: Source)
    requires Wins(jobs, job.rel, winner)
    ensures Beaten(jobs, job) <==> job.source.rank > winner.rank
  {
  }
}
