/** Aggregating validated staging reports into a release bundle, and verifying such a bundle.

    The two are written separately; the theorems at the end say that they agree. */
module ReleaseCertification {
  import opened Common
  import opened Strings
  import opened Permutations
  import opened Profiles
  import opened StagingReports
  import M = ExecutionManifest

  datatype Input = Input(reportIndex: int, evidence: string, generatedAt: string, execution: Execution, runner: Runner,
                         runtime: string, counts: Counts)
  datatype Observation = Observation(reportIndex: int, evidence: string, generatedAt: string, runnerProfile: string,
                                     runnerId: Option<string>, authorized: bool, status: string,
                                     output: string, duration: int)
  /** The three sentences a merged row can carry. */
  datatype Reason = SomeFail | PassAndNoFail | NoneRecorded
  datatype Merged = Merged(reason: Reason, observations: seq<Observation>)
  datatype Coverage = Coverage(id: string, manifestSha: string, required: seq<string>, observed: seq<string>,
                               missing: seq<string>, complete: bool)
  datatype BundleBody = BundleBody(schemaVersion: int, release: string, generatedAt: string, execution: Coverage,
                                   sourceTree: M.Tree, requiredGates: seq<string>, inputs: seq<Input>,
                                   results: seq<Row<Merged>>, counts: Counts, certified: bool)
  datatype Bundle = Bundle(body: BundleBody, evidence: string)

  /** SHA-256 over the canonical JSON of each kind of sealed body. */
  datatype Env = Env(manifest: M.Hashes, report: ReportHash, bundle: BundleBody -> string)

  // ---------- aggregation ----------

  /** The stripped non-empty names, each once, in order of first appearance. */
  function UniqueStripped(names: seq<string>): seq<string> {
    if names == [] then []
    else
      var rest := UniqueStripped(names[..|names| - 1]);
      var name := Strip(names[|names| - 1]);
      if name == "" || name in rest then rest else rest + [name]
  }

  /** The last row of that name. */
  function Lookup<X>(rows: seq<Row<X>>, gate: string): Option<Row<X>> {
    if rows == [] then None
    else if rows[|rows| - 1].name == gate then Some(rows[|rows| - 1])
    else Lookup(rows[..|rows| - 1], gate)
  }

  function ObservationOf(report: Report, index: int, gate: string): seq<Observation> {
    match Lookup(report.body.results, gate)
    case None => []
    case Some(row) =>
      [Observation(index, report.evidence, report.body.generatedAt, report.body.runner.profile, report.body.runner.id,
                   MayRecord(report, gate), row.status, row.rest.output, row.rest.duration)]
  }

  function Observations(validated: seq<Report>, gate: string): seq<Observation> {
    if validated == [] then []
    else
      var last := |validated| - 1;
      Observations(validated[..last], gate) + ObservationOf(validated[last], last, gate)
  }

  function ReasonFor(status: string): Reason {
    if status == FAIL then SomeFail else if status == PASS then PassAndNoFail else NoneRecorded
  }

  function MergedRow(validated: seq<Report>, gate: string): Row<Merged> {
    var status := GateStatus(validated, gate);
    Row(gate, status, Merged(ReasonFor(status), Observations(validated, gate)))
  }

  function MergedRows(validated: seq<Report>, gates: seq<string>): seq<Row<Merged>> {
    seq(|gates|, i requires 0 <= i < |gates| => MergedRow(validated, gates[i]))
  }

  ghost predicate AllRowsOk(validated: seq<Report>) { forall v :: v in validated ==> RowsOk(v.body.results) }

  lemma {:induction false} LookupFinds<X(!new)>(rows: seq<Row<X>>, gate: string)
    requires Distinct(Names(rows))
    ensures Lookup(rows, gate).Some? ==> Lookup(rows, gate).value in rows && Lookup(rows, gate).value.name == gate
    ensures forall row :: row in rows && row.name == gate ==> Lookup(rows, gate) == Some(row)
  {
    if rows != [] {
      var last := |rows| - 1;
      assert Names(rows[..last]) == Names(rows)[..last];
      LookupFinds(rows[..last], gate);
      forall row | row in rows && row.name == gate ensures Lookup(rows, gate) == Some(row) {
        var i :| 0 <= i < |rows| && rows[i] == row;
        assert Names(rows)[i] == gate && Names(rows)[last] == rows[last].name;
        if i < last {
          assert rows[..last][i] == row;
        }
      }
    }
  }

  /** Some authorized observation has this status: what `in statuses` asks. */
  predicate Observed(observations: seq<Observation>, status: string) {
    exists o :: o in observations && o.authorized && o.status == status
  }

  /** The list of observations shows a status exactly when some authorized report recorded it. */
  lemma {:induction false} ObservedExactlyWhenRecorded(validated: seq<Report>, gate: string, status: string)
    requires AllRowsOk(validated)
    ensures Observed(Observations(validated, gate), status) <==> AnyRecords(validated, gate, status)
  {
    if validated != [] {
      var last := |validated| - 1;
      var before, report := validated[..last], validated[last];
      ObservedExactlyWhenRecorded(before, gate, status);
      assert validated == before + [report];
      EitherRecords(before, [report], gate, status);
      assert RowsOk(report.body.results);
      AppendedReport(Observations(before, gate), report, last, gate, status);
    }
  }

  lemma AppendedReport(before: seq<Observation>, report: Report, index: int, gate: string, status: string)
    requires RowsOk(report.body.results)
    ensures Observed(before + ObservationOf(report, index, gate), status)
       <==> Observed(before, status) || AnyRecords([report], gate, status)
  {
    OneReport(report, index, gate, status);
    ObservedEither(before, ObservationOf(report, index, gate), status);
  }

  lemma ObservedEither(a: seq<Observation>, b: seq<Observation>, status: string)
    ensures Observed(a + b, status) <==> Observed(a, status) || Observed(b, status)
  {
    assert forall o :: o in a + b <==> o in a || o in b;
  }

  lemma OneReport(report: Report, index: int, gate: string, status: string)
    requires RowsOk(report.body.results)
    ensures Observed(ObservationOf(report, index, gate), status) <==> AnyRecords([report], gate, status)
  {
    LookupFinds(report.body.results, gate);
    assert report in [report];
    if Lookup(report.body.results, gate).Some? {
      var o := ObservationOf(report, index, gate)[0];
      assert o in ObservationOf(report, index, gate);
    }
  }

  /** One gate of the merged result. */
  method MergeGate(validated: seq<Report>, gate: string) returns (row: Row<Merged>)
    requires AllRowsOk(validated)
    ensures row == MergedRow(validated, gate)
  {
    var observations: seq<Observation> := [];
    for index := 0 to |validated|
      invariant observations == Observations(validated[..index], gate)
    {
      var report := validated[index];
      assert validated[..index + 1][..index] == validated[..index];
      var found := Lookup(report.body.results, gate);
      if found.Some? {
        var o := Observation(index, report.evidence, report.body.generatedAt, report.body.runner.profile,
                             report.body.runner.id, MayRecord(report, gate), found.value.status,
                             found.value.rest.output, found.value.rest.duration);
        observations := observations + [o];
      }
    }
    assert validated[..|validated|] == validated;
    ObservedExactlyWhenRecorded(validated, gate, FAIL);
    ObservedExactlyWhenRecorded(validated, gate, PASS);
    var status := if Observed(observations, FAIL) then FAIL else if Observed(observations, PASS) then PASS else SKIP;
    row := Row(gate, status, Merged(ReasonFor(status), observations));
  }

  function ProfilesOf(validated: seq<Report>): (r: seq<string>)
    ensures |r| == |validated|
  {
    seq(|validated|, i requires 0 <= i < |validated| => validated[i].body.runner.profile)
  }

  function MissingFrom(required: seq<string>, observed: seq<string>): seq<string> {
    if required == [] then []
    else (if required[0] in observed then [] else [required[0]]) + MissingFrom(required[1..], observed)
  }

  lemma {:induction false} NothingMissing(required: seq<string>, observed: seq<string>)
    ensures MissingFrom(required, observed) == [] <==> forall p :: p in required ==> p in observed
  {
    if required != [] {
      NothingMissing(required[1..], observed);
      assert forall p :: p in required <==> p == required[0] || p in required[1..];
    }
  }

  function InputsOf(validated: seq<Report>): (r: seq<Input>)
    ensures |r| == |validated|
  {
    seq(|validated|, i requires 0 <= i < |validated| =>
      var b := validated[i].body;
      Input(i, validated[i].evidence, b.generatedAt, b.execution, b.runner, b.runtime, b.counts))
  }

  function CoverageOf(validated: seq<Report>, manifest: M.Manifest): Coverage {
    var observed := M.SortedNames(ProfilesOf(validated));
    var missing := MissingFrom(manifest.body.requiredProfiles, observed);
    Coverage(manifest.body.executionId, manifest.evidence, manifest.body.requiredProfiles, observed, missing, missing == [])
  }

  /** The bundle of some validated reports under a verified manifest. */
  function BundleOf(validated: seq<Report>, manifest: M.Manifest, release: string, now: string): BundleBody {
    var merged := MergedRows(validated, manifest.body.requiredGates);
    var coverage := CoverageOf(validated, manifest);
    BundleBody(3, release, now, coverage, manifest.body.sourceTree, manifest.body.requiredGates, InputsOf(validated),
               merged, ActualCounts(merged), FullPass(ActualCounts(merged), |merged|) && coverage.complete)
  }

  function Seal(body: BundleBody, env: Env): Bundle { Bundle(body, env.bundle(body)) }

  /** When aggregation returns: a manifest that also re-verifies in its returned spelling, its digest
      in lower case, at least one report, and every report good and made for that manifest. */
  ghost predicate Aggregates(reports: seq<Report>, manifest: M.Manifest, release: string, gates: seq<string>, env: Env) {
    && M.Accepts(manifest, env.manifest) && M.Accepts(M.Returned(manifest), env.manifest)
    && manifest.body.release == release
    && reports != []
    && (forall r :: r in reports ==> Good(r, manifest, release, env))
    && Lower(manifest.body.sourceTree.sha) == manifest.body.sourceTree.sha
    && UniqueStripped(gates) == manifest.body.requiredGates
  }

  ghost predicate Good(report: Report, manifest: M.Manifest, release: string, env: Env) {
    ReportOk(report, release, env.report) && BoundTo(report, M.Returned(manifest))
  }

  lemma ShaTextIsStripped(s: string)
    requires M.IsSha256Text(s)
    ensures Strip(s) == s
  {
    StrippedIsFixed(s);
  }

  /** Every good report carries the manifest's source tree, its digest in lower case. */
  lemma GoodSource(report: Report, manifest: M.Manifest, release: string, env: Env)
    requires Good(report, manifest, release, env) && M.Accepts(manifest, env.manifest)
    ensures var tree := manifest.body.sourceTree;
            Validated(report).body.sourceTree == M.Tree(Lower(tree.sha), tree.fileCount)
  {
    ShaTextIsStripped(manifest.body.sourceTree.sha);
  }

  ghost predicate AllValid(reports: seq<Report>, manifest: M.Manifest, release: string, env: Env) {
    forall r :: r in reports ==> Passes(r, release, Some(manifest), env.report, env.manifest)
  }

  lemma OneMoreValid(reports: seq<Report>, i: nat, manifest: M.Manifest, release: string, env: Env)
    requires i < |reports|
    ensures AllValid(reports[..i + 1], manifest, release, env)
       <==> && AllValid(reports[..i], manifest, release, env)
            && Passes(reports[i], release, Some(manifest), env.report, env.manifest)
    ensures AllValid(reports, manifest, release, env) ==> AllValid(reports[..i + 1], manifest, release, env)
    ensures ValidatedAll(reports[..i + 1]) == ValidatedAll(reports[..i]) + [Validated(reports[i])]
  {
    assert reports[..i + 1] == reports[..i] + [reports[i]];
    assert forall r :: r in reports[..i + 1] <==> r in reports[..i] || r == reports[i];
  }

  method ValidateAll(reports: seq<Report>, manifest: M.Manifest, release: string, env: Env)
    returns (r: Option<seq<Report>>)
    ensures r.Some? <==> AllValid(reports, manifest, release, env)
    ensures r.Some? ==> r.value == ValidatedAll(reports)
  {
    var validated: seq<Report> := [];
    for i := 0 to |reports|
      invariant AllValid(reports[..i], manifest, release, env)
      invariant validated == ValidatedAll(reports[..i])
    {
      var one := ValidateStagingReport(reports[i], release, Some(manifest), env.report, env.manifest);
      OneMoreValid(reports, i, manifest, release, env);
      if one.None? {
        return None;
      }
      validated := validated + [one.value];
    }
    assert reports[..|reports|] == reports;
    return Some(validated);
  }

  /** Every validated report has the source tree of the first. */
  method SameSource(validated: seq<Report>) returns (ok: bool)
    requires validated != []
    ensures ok <==> forall v :: v in validated ==>
              && Lower(v.body.sourceTree.sha) == Lower(validated[0].body.sourceTree.sha)
              && v.body.sourceTree.fileCount == validated[0].body.sourceTree.fileCount
  {
    var sha, count := Lower(validated[0].body.sourceTree.sha), validated[0].body.sourceTree.fileCount;
    for i := 1 to |validated|
      invariant forall v :: v in validated[..i] ==>
                  Lower(v.body.sourceTree.sha) == sha && v.body.sourceTree.fileCount == count
    {
      if Lower(validated[i].body.sourceTree.sha) != sha || validated[i].body.sourceTree.fileCount != count {
        return false;
      }
      assert validated[..i + 1] == validated[..i] + [validated[i]];
    }
    assert validated[..|validated|] == validated;
    return true;
  }

  /** The source tree of the first report, found in all of them, against the manifest's. */
  method SourceMatches(validated: seq<Report>, tree: M.Tree) returns (ok: bool)
    requires validated != []
    requires forall v :: v in validated ==> v.body.sourceTree == M.Tree(Lower(tree.sha), tree.fileCount)
    ensures ok <==> Lower(tree.sha) == tree.sha
  {
    var same := SameSource(validated);
    assert validated[0] in validated;
    if !same {
      assert false;
    }
    var source := validated[0].body.sourceTree;
    LowerIsFixed(tree.sha);
    ok := tree == M.Tree(Lower(source.sha), source.fileCount);
  }

  method GatesMatch(names: seq<string>, required: seq<string>) returns (ok: bool)
    requires required == GATES
    ensures ok <==> names == required
  {
    if names == [] || exists name :: name in names && name !in GATES {
      return false;
    }
    return names == required;
  }

  lemma GoodSources(reports: seq<Report>, manifest: M.Manifest, release: string, env: Env)
    requires M.Accepts(manifest, env.manifest) && forall r :: r in reports ==> Good(r, manifest, release, env)
    ensures var tree := manifest.body.sourceTree;
            forall v :: v in ValidatedAll(reports) ==> v.body.sourceTree == M.Tree(Lower(tree.sha), tree.fileCount)
  {
    forall v | v in ValidatedAll(reports)
      ensures v.body.sourceTree == M.Tree(Lower(manifest.body.sourceTree.sha), manifest.body.sourceTree.fileCount)
    {
      var i :| 0 <= i < |reports| && ValidatedAll(reports)[i] == v;
      assert reports[i] in reports;
      GoodSource(reports[i], manifest, release, env);
    }
  }

  /** `validate` against the returned manifest is what makes a report good. */
  lemma PassesExactlyWhenGood(reports: seq<Report>, manifest: M.Manifest, release: string, env: Env)
    requires reports != []
    ensures AllValid(reports, M.Returned(manifest), release, env)
       <==> (&& M.Accepts(M.Returned(manifest), env.manifest)
             && forall r :: r in reports ==> Good(r, manifest, release, env))
  {
    var again := M.Returned(manifest);
    assert M.Returned(again) == again;
    assert reports[0] in reports;
    forall r ensures Passes(r, release, Some(again), env.report, env.manifest)
                <==> Good(r, manifest, release, env) && M.Accepts(again, env.manifest) {}
  }

  method MergeAll(validated: seq<Report>, gates: seq<string>) returns (merged: seq<Row<Merged>>)
    requires AllRowsOk(validated)
    ensures merged == MergedRows(validated, gates)
  {
    merged := [];
    for i := 0 to |gates|
      invariant i == |merged| && merged == MergedRows(validated, gates)[..i]
    {
      var row := MergeGate(validated, gates[i]);
      NextMerged(validated, gates, merged, i, row);
      merged := merged + [row];
    }
    AllMerged(MergedRows(validated, gates), |gates|);
  }

  lemma AllMerged(rows: seq<Row<Merged>>, n: nat)
    requires n == |rows|
    ensures rows[..n] == rows
  {
  }

  lemma NextMerged(validated: seq<Report>, gates: seq<string>, merged: seq<Row<Merged>>, i: nat, row: Row<Merged>)
    requires i < |gates| && merged == MergedRows(validated, gates)[..i] && row == MergedRow(validated, gates[i])
    ensures merged + [row] == MergedRows(validated, gates)[..i + 1]
  {
    AppendNext(MergedRows(validated, gates), i, row);
  }

  lemma AppendNext(rows: seq<Row<Merged>>, i: nat, row: Row<Merged>)
    requires i < |rows| && rows[i] == row
    ensures rows[..i] + [row] == rows[..i + 1]
  {
  }

  lemma GoodRows(reports: seq<Report>, manifest: M.Manifest, release: string, env: Env)
    requires forall r :: r in reports ==> Good(r, manifest, release, env)
    ensures AllRowsOk(ValidatedAll(reports))
  {
    forall v | v in ValidatedAll(reports) ensures RowsOk(v.body.results) {
      var i :| 0 <= i < |reports| && ValidatedAll(reports)[i] == v;
      assert reports[i] in reports;
    }
  }

  /** `aggregate_staging_reports`.  The comparison of the reports' source trees with each other is
      made as in the source and proved unable to fail. */
  method AggregateStagingReports(reports: seq<Report>, manifest: M.Manifest, release: string, gates: seq<string>,
                                 now: string, env: Env)
    returns (r: Option<Bundle>)
    ensures r.Some? <==> Aggregates(reports, manifest, release, gates, env)
    ensures r.Some? ==> r.value == Seal(BundleOf(ValidatedAll(reports), M.Returned(manifest), release, now), env)
  {
    var verified := M.VerifyExecutionManifest(manifest, env.manifest, None);
    if verified.None? || verified.value.body.release != release {
      return None;
    }
    var m := verified.value;
    var all := ValidateAll(reports, m, release, env);
    if all.None? {
      if reports != [] { PassesExactlyWhenGood(reports, manifest, release, env); }
      return None;
    }
    var validated := all.value;
    if validated == [] {
      return None;
    }
    PassesExactlyWhenGood(reports, manifest, release, env);
    GoodSources(reports, manifest, release, env);
    var sourceOk := SourceMatches(validated, m.body.sourceTree);
    var gatesOk := GatesMatch(UniqueStripped(gates), m.body.requiredGates);
    if !sourceOk || !gatesOk {
      return None;
    }
    GoodRows(reports, manifest, release, env);
    var body := MergedBody(validated, m, release, now);
    return Some(Seal(body, env));
  }

  method MergedBody(validated: seq<Report>, m: M.Manifest, release: string, now: string) returns (body: BundleBody)
    requires AllRowsOk(validated)
    ensures body == BundleOf(validated, m, release, now)
  {
    var merged := MergeAll(validated, m.body.requiredGates);
    var counts := ActualCounts(merged);
    var coverage := CoverageOf(validated, m);
    var certified := counts.fail == 0 && counts.skip == 0 && counts.pass == |merged| && coverage.complete;
    body := BundleBody(3, release, now, coverage, m.body.sourceTree, m.body.requiredGates, InputsOf(validated),
                       merged, counts, certified);
  }

  // ---------- a manifest that is accepted and never aggregated ----------

  /** A manifest sealed by hand around a digest with a capital, which the builder never writes, is
      accepted and returned unchanged, and no list of reports is ever aggregated under it. */
  lemma CapitalDigestIsNeverAggregated(tree: M.Tree, now: string, reports: seq<Report>, release: string,
                                       gates: seq<string>, env: Env)
    requires M.IsSha256Text(tree.sha) && Lower(tree.sha) != tree.sha && tree.fileCount > 0
    requires forall b :: env.manifest.body(b) != ""
    ensures var m := M.Build(tree, now, env.manifest);
            && M.Accepts(m, env.manifest) && M.Returned(m) == m
            && !Aggregates(reports, m, release, gates, env)
  {
    M.BuiltIsAcceptedExactlyWhen(tree, now, env.manifest);
  }

  /** Sixty-four capital As are such a digest. */
  lemma CapitalsAreADigest()
    ensures var sha := seq(64, i => 'A');
            M.IsSha256Text(sha) && Lower(sha) != sha
  {
    LowerAt(seq(64, i => 'A'), 0);
  }
}
