/** Staging reports: how one is validated, and how the gate statuses of many are merged. */
module StagingReports {
  import opened Common
  import opened Strings
  import opened Permutations
  import opened Profiles
  import M = ExecutionManifest

  const PASS := "PASS"
  const FAIL := "FAIL"
  const SKIP := "SKIP"

  predicate IsStatus(status: string) { status == PASS || status == FAIL || status == SKIP }

  /** A gate row: the fields every reader uses, and the rest. */
  datatype Row<+X> = Row(name: string, status: string, rest: X)
  datatype Measure = Measure(output: string, duration: int)
  datatype Counts = Counts(pass: nat, fail: nat, skip: nat)
  datatype Execution = Execution(id: string, manifestSha: string)
  datatype Runner = Runner(profile: string, id: Option<string>)

  datatype Body = Body(release: string, schemaVersion: int, generatedAt: string, execution: Execution, runner: Runner,
                       runtime: string, sourceTree: M.Tree, results: seq<Row<Measure>>, counts: Counts)
  datatype Report = Report(body: Body, evidence: string)

  type ReportHash = Body -> string

  // ---------- gate rows ----------

  function NormalRow<X>(row: Row<X>): Row<X> { Row(Strip(row.name), Upper(Strip(row.status)), row.rest) }

  function NormalRows<X>(rows: seq<Row<X>>): seq<Row<X>> {
    seq(|rows|, i requires 0 <= i < |rows| => NormalRow(rows[i]))
  }

  function Names<X>(rows: seq<Row<X>>): (r: seq<string>)
    ensures |r| == |rows|
  {
    seq(|rows|, i requires 0 <= i < |rows| => rows[i].name)
  }

  /** After normalization: every row names a gate and has a status, and no gate is named twice. */
  ghost predicate RowsOk<X(!new)>(rows: seq<Row<X>>) {
    && (forall i :: 0 <= i < |rows| ==> rows[i].name != "" && IsStatus(rows[i].status))
    && Distinct(Names(rows))
  }

  /** `_validate_gate_results` */
  method ValidateGateResults<X(!new)>(results: seq<Row<X>>) returns (r: Option<seq<Row<X>>>)
    ensures r == if RowsOk(NormalRows(results)) then Some(NormalRows(results)) else None
  {
    var seen: set<string> := {};
    var normalized: seq<Row<X>> := [];
    for index := 0 to |results|
      invariant normalized == NormalRows(results[..index]) && RowsOk(normalized)
      invariant seen == Elements(Names(normalized))
    {
      var name, status := Strip(results[index].name), Upper(Strip(results[index].status));
      NextRow(results, index);
      if name == "" || name in seen || !IsStatus(status) {
        return None;
      }
      seen := seen + {name};
      normalized := normalized + [Row(name, status, results[index].rest)];
    }
    assert results[..|results|] == results;
    return Some(normalized);
  }

  /** One more row: the list stays in order exactly when the loop's three tests pass. */
  lemma NextRow<X(!new)>(results: seq<Row<X>>, index: nat)
    requires index < |results| && RowsOk(NormalRows(results[..index]))
    ensures var before, row := NormalRows(results[..index]), NormalRow(results[index]);
            && NormalRows(results[..index + 1]) == before + [row]
            && Elements(Names(before + [row])) == Elements(Names(before)) + {row.name}
            && (row.name != "" && row.name !in Names(before) && IsStatus(row.status)
                ==> RowsOk(before + [row]))
            && (row.name == "" || row.name in Names(before) || !IsStatus(row.status)
                ==> !RowsOk(NormalRows(results)))
  {
    var before, row, all := NormalRows(results[..index]), NormalRow(results[index]), NormalRows(results);
    assert all[..index] == before && all[index] == row;
    assert Names(all)[..index] == Names(before) && Names(all)[index] == row.name;
    AppendedRow(before, row);
  }

  lemma AppendedRow<X(!new)>(rows: seq<Row<X>>, row: Row<X>)
    requires RowsOk(rows)
    ensures row.name != "" && IsStatus(row.status) && row.name !in Names(rows) ==> RowsOk(rows + [row])
    ensures Elements(Names(rows + [row])) == Elements(Names(rows)) + {row.name}
  {
    assert Names(rows + [row]) == Names(rows) + [row.name];
  }

  function CountOf<X>(rows: seq<Row<X>>, status: string): nat {
    if rows == [] then 0
    else CountOf(rows[..|rows| - 1], status) + if rows[|rows| - 1].status == status then 1 else 0
  }

  /** `_actual_counts` */
  function ActualCounts<X>(rows: seq<Row<X>>): Counts {
    Counts(CountOf(rows, PASS), CountOf(rows, FAIL), CountOf(rows, SKIP))
  }

  lemma {:induction false} CountIsBounded<X>(rows: seq<Row<X>>, status: string)
    ensures CountOf(rows, status) <= |rows|
    ensures CountOf(rows, status) == |rows| <==> forall i :: 0 <= i < |rows| ==> rows[i].status == status
    ensures CountOf(rows, status) == 0 <==> forall i :: 0 <= i < |rows| ==> rows[i].status != status
  {
    if rows != [] {
      CountIsBounded(rows[..|rows| - 1], status);
    }
  }

  predicate FullPass(counts: Counts, rows: nat) { counts.fail == 0 && counts.skip == 0 && counts.pass == rows }

  /** The three comparisons of counts say that every row passed. */
  lemma FullPassExactlyWhen<X>(rows: seq<Row<X>>)
    ensures FullPass(ActualCounts(rows), |rows|) <==> forall i :: 0 <= i < |rows| ==> rows[i].status == PASS
  {
    CountIsBounded(rows, PASS);
    CountIsBounded(rows, FAIL);
    CountIsBounded(rows, SKIP);
  }

  lemma {:induction false} CountsAddUp<X(!new)>(rows: seq<Row<X>>)
    requires forall i :: 0 <= i < |rows| ==> IsStatus(rows[i].status)
    ensures var c := ActualCounts(rows); c.pass + c.fail + c.skip == |rows|
  {
    if rows != [] {
      CountsAddUp(rows[..|rows| - 1]);
    }
  }

  // ---------- one report ----------

  function Profile(report: Report): Option<string> { NormalizeProfile(report.body.runner.profile) }

  function ProfileName(report: Report): string {
    var profile := Profile(report);
    if profile.Some? then profile.value else ""
  }

  /** The fields of a report other than its rows. */
  predicate HeaderOk(report: Report, release: string, h: ReportHash) {
    var b := report.body;
    && report.evidence != "" && report.evidence == h(b)
    && b.release == release && b.schemaVersion == 3
    && M.IsSha256Text(b.execution.id) && M.IsSha256Text(Lower(b.execution.manifestSha))
    && Profile(report).Some?
    && (b.runner.id.Some? ==> |b.runner.id.value| <= 160)
    && M.IsSha256Text(Lower(Strip(b.sourceTree.sha))) && b.sourceTree.fileCount > 0
  }

  ghost predicate Authorized(profile: string, rows: seq<Row<Measure>>) {
    forall row :: row in rows && row.status != SKIP ==> Allows(profile, row.name)
  }

  /** A report that stands on its own: sealed, complete, counted, and silent on the gates its
      runner may not judge. */
  ghost predicate ReportOk(report: Report, release: string, h: ReportHash) {
    var rows := NormalRows(report.body.results);
    && HeaderOk(report, release, h)
    && RowsOk(rows) && Names(rows) == GATES
    && report.body.counts == ActualCounts(rows)
    && Authorized(ProfileName(report), rows)
  }

  /** The report was made for this (verified) manifest. */
  predicate BoundTo(report: Report, manifest: M.Manifest) {
    var b := report.body;
    && b.release == manifest.body.release
    && b.execution.id == manifest.body.executionId && Lower(b.execution.manifestSha) == manifest.evidence
    && b.sourceTree == manifest.body.sourceTree
    && ProfileName(report) in manifest.body.requiredProfiles
  }

  ghost predicate Passes(report: Report, release: string, manifest: Option<M.Manifest>, h: ReportHash, hs: M.Hashes) {
    && ReportOk(report, release, h)
    && (manifest.Some? ==> M.Accepts(manifest.value, hs))
    && (manifest.Some? ==> BoundTo(report, M.Returned(manifest.value)))
  }

  function Validated(report: Report): Report {
    var b := report.body;
    report.(body := b.(execution := Execution(b.execution.id, Lower(b.execution.manifestSha)),
                       runner := b.runner.(profile := ProfileName(report)),
                       sourceTree := M.Tree(Lower(Strip(b.sourceTree.sha)), b.sourceTree.fileCount),
                       results := NormalRows(b.results)))
  }

  /** `validate_staging_report` */
  method ValidateStagingReport(report: Report, release: string, manifest: Option<M.Manifest>, h: ReportHash, hs: M.Hashes)
    returns (r: Option<Report>)
    ensures r.Some? <==> Passes(report, release, manifest, h, hs)
    ensures r.Some? ==> r.value == Validated(report)
  {
    if !HeaderOk(report, release, h) {
      return None;
    }
    var profile := ProfileName(report);
    var results := ValidateGateResults(report.body.results);
    if results.None? || Names(results.value) != GATES || report.body.counts != ActualCounts(results.value) {
      return None;
    }
    var authorized := CheckAuthorized(profile, results.value);
    if !authorized {
      return None;
    }
    if manifest.Some? {
      var verified := M.VerifyExecutionManifest(manifest.value, hs, None);
      if verified.None? || !BoundTo(report, verified.value) {
        return None;
      }
    }
    return Some(Validated(report));
  }

  method CheckAuthorized(profile: string, rows: seq<Row<Measure>>) returns (ok: bool)
    requires Names(rows) == GATES
    ensures ok <==> Authorized(profile, rows)
  {
    for i := 0 to |rows|
      invariant Authorized(profile, rows[..i])
    {
      assert rows[i].name == Names(rows)[i];
      if rows[i].name !in GATES {
        assert false;
      }
      if rows[i].status != SKIP && !Allows(profile, rows[i].name) {
        return false;
      }
      assert forall row :: row in rows[..i + 1] ==> row in rows[..i] || row == rows[i];
    }
    assert rows[..|rows|] == rows;
    return true;
  }

  // ---------- merging statuses ----------

  /** SKIP < PASS < FAIL */
  function Rank(status: string): nat { if status == FAIL then 2 else if status == PASS then 1 else 0 }

  function Worse(a: string, b: string): string { if Rank(a) >= Rank(b) then a else b }

  /** A validated report records this status for the gate. */
  predicate Records(report: Report, gate: string, status: string) {
    exists row :: row in report.body.results && row.name == gate && row.status == status
  }

  predicate MayRecord(report: Report, gate: string) { Allows(report.body.runner.profile, gate) }

  /** The merged status: FAIL if any authorized report failed the gate, else PASS if any passed it. */
  function GateStatus(reports: seq<Report>, gate: string): string {
    if AnyRecords(reports, gate, FAIL) then FAIL else if AnyRecords(reports, gate, PASS) then PASS else SKIP
  }

  predicate AnyRecords(reports: seq<Report>, gate: string, status: string) {
    exists r :: r in reports && MayRecord(r, gate) && Records(r, gate, status)
  }

  lemma EitherRecords(a: seq<Report>, b: seq<Report>, gate: string, status: string)
    ensures AnyRecords(a + b, gate, status) <==> AnyRecords(a, gate, status) || AnyRecords(b, gate, status)
  {
    assert forall r :: r in a + b <==> r in a || r in b;
  }

  /** Merging is a homomorphism from concatenation to the join. */
  lemma MergeIsJoin(a: seq<Report>, b: seq<Report>, gate: string)
    ensures GateStatus(a + b, gate) == Worse(GateStatus(a, gate), GateStatus(b, gate))
    ensures GateStatus([], gate) == SKIP
  {
    EitherRecords(a, b, gate, FAIL);
    EitherRecords(a, b, gate, PASS);
  }

  /** The order of the reports and their repetition do not matter. */
  lemma OnlyTheSetMatters(a: seq<Report>, b: seq<Report>, gate: string)
    requires Elements(a) == Elements(b)
    ensures GateStatus(a, gate) == GateStatus(b, gate)
  {
    assert forall r :: r in a <==> r in Elements(a);
    assert forall r :: r in b <==> r in Elements(b);
  }

  ghost predicate AllPass(reports: seq<Report>, release: string, h: ReportHash) {
    forall r :: r in reports ==> ReportOk(r, release, h)
  }

  function ValidatedAll(reports: seq<Report>): (r: seq<Report>)
    ensures |r| == |reports|
  {
    seq(|reports|, i requires 0 <= i < |reports| => Validated(reports[i]))
  }

  ghost function UnfilteredStatus(reports: seq<Report>, gate: string): string {
    if exists r :: r in reports && Records(r, gate, FAIL) then FAIL
    else if exists r :: r in reports && Records(r, gate, PASS) then PASS
    else SKIP
  }

  /** Whatever a validated report records beyond SKIP it was authorized to record. */
  lemma RecordedIsAuthorized(report: Report, release: string, h: ReportHash, gate: string, status: string)
    requires ReportOk(report, release, h) && Records(Validated(report), gate, status) && status != SKIP
    ensures MayRecord(Validated(report), gate)
  {
  }

  /** So the filter on authorized observations never changes a merged status. */
  lemma FilterChangesNothing(reports: seq<Report>, release: string, h: ReportHash, gate: string)
    requires AllPass(reports, release, h)
    ensures GateStatus(ValidatedAll(reports), gate) == UnfilteredStatus(ValidatedAll(reports), gate)
  {
    var all := ValidatedAll(reports);
    forall r, status | r in all && status != SKIP && Records(r, gate, status) ensures MayRecord(r, gate) {
      var i :| 0 <= i < |all| && all[i] == r;
      assert reports[i] in reports;
      RecordedIsAuthorized(reports[i], release, h, gate, status);
    }
    assert Rank(FAIL) != Rank(SKIP) && Rank(PASS) != Rank(SKIP);
  }

  /** One failing report decides the gate, whatever the others say. */
  lemma FailIsNeverOutvoted(reports: seq<Report>, release: string, h: ReportHash, i: nat, gate: string)
    requires AllPass(reports, release, h) && i < |reports| && Records(Validated(reports[i]), gate, FAIL)
    ensures GateStatus(ValidatedAll(reports), gate) == FAIL
  {
    assert reports[i] in reports;
    RecordedIsAuthorized(reports[i], release, h, gate, FAIL);
    assert ValidatedAll(reports)[i] in ValidatedAll(reports);
  }
}
