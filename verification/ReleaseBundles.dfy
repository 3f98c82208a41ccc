/** Verifying a release bundle, and its agreement with the aggregation that makes bundles. */
module ReleaseBundles {
  import opened Common
  import opened Permutations
  import opened Profiles
  import opened StagingReports
  import opened ReleaseCertification
  import J = CanonicalJson
  import M = ExecutionManifest

  // ---------- what the verifier asks ----------

  predicate HeadOk(b: Bundle, release: string, env: Env) {
    && b.evidence != "" && b.evidence == env.bundle(b.body)
    && b.body.release == release && b.body.schemaVersion == 3
  }

  predicate CoverageOk(e: Coverage) {
    && M.IsSha256Text(e.id) && M.IsSha256Text(e.manifestSha)
    && NoRepeats(e.required) && NoRepeats(e.observed)
    && (forall p :: p in e.observed ==> p in e.required)
    && e.missing == MissingFrom(e.required, e.observed) && e.complete == (e.missing == [])
  }

  predicate RequiredOk(required: seq<string>) {
    required != [] && (forall name :: name in required ==> name in GATES) && NoRepeats(required)
  }

  /** The rows in normal form are the required gates in order, with true counts and verdict. */
  ghost predicate ResultsOk(b: BundleBody) {
    var rows := NormalRows(b.results);
    && RowsOk(rows) && Names(rows) == b.requiredGates
    && b.counts == ActualCounts(rows)
    && b.certified == (FullPass(ActualCounts(rows), |rows|) && b.execution.complete)
  }

  function InputProfile(item: Input): Option<string> { NormalizeProfile(item.runner.profile) }

  predicate InputOk(item: Input, required: seq<string>) {
    InputProfile(item).Some? && InputProfile(item).value in required
  }

  function ProfileOf(item: Input): string { if InputProfile(item).Some? then InputProfile(item).value else "" }

  function InputProfiles(inputs: seq<Input>): map<int, string> {
    if inputs == [] then map[]
    else
      var last := inputs[|inputs| - 1];
      InputProfiles(inputs[..|inputs| - 1])[last.reportIndex := ProfileOf(last)]
  }

  function ProfileSet(profiles: map<int, string>): set<string> { set k | k in profiles :: profiles[k] }

  predicate InputsOk(b: BundleBody) {
    && (forall item :: item in b.inputs ==> InputOk(item, b.execution.required))
    && (set item | item in b.inputs :: item.execution) == {Execution(b.execution.id, b.execution.manifestSha)}
    && J.Ascending(b.execution.observed) && Elements(b.execution.observed) == ProfileSet(InputProfiles(b.inputs))
  }

  predicate ObservationOk(o: Observation, gate: string, profiles: map<int, string>) {
    && o.reportIndex in profiles && o.runnerProfile == profiles[o.reportIndex]
    && o.authorized == Allows(profiles[o.reportIndex], gate)
    && IsStatus(o.status) && (o.status != SKIP ==> o.authorized)
  }

  predicate RowObservationsOk(row: Row<Merged>, profiles: map<int, string>) {
    forall o :: o in row.rest.observations ==> ObservationOk(o, row.name, profiles)
  }

  predicate ManifestAgrees(b: BundleBody, release: string, m: M.Manifest) {
    && m.body.release == release && m.body.sourceTree == b.sourceTree
    && b.execution.id == m.body.executionId && b.execution.manifestSha == m.evidence
    && b.execution.required == m.body.requiredProfiles && b.requiredGates == m.body.requiredGates
  }

  ghost predicate Verifies(b: Bundle, release: string, requireComplete: bool, manifest: Option<M.Manifest>, env: Env) {
    && HeadOk(b, release, env) && CoverageOk(b.body.execution)
    && RequiredOk(b.body.requiredGates) && ResultsOk(b.body)
    && (requireComplete ==> b.body.certified)
    && M.IsSha256Text(b.body.sourceTree.sha)
    && InputsOk(b.body)
    && (forall row :: row in NormalRows(b.body.results) ==> RowObservationsOk(row, InputProfiles(b.body.inputs)))
    && (manifest.Some? ==> M.Accepts(manifest.value, env.manifest))
    && (manifest.Some? ==> ManifestAgrees(b.body, release, M.Returned(manifest.value)))
  }

  // ---------- the verifier ----------

  method CheckInputs(b: BundleBody) returns (ok: bool, profiles: map<int, string>)
    ensures ok <==> InputsOk(b)
    ensures ok ==> profiles == InputProfiles(b.inputs)
  {
    profiles := map[];
    var executions: set<Execution> := {};
    for i := 0 to |b.inputs|
      invariant forall item :: item in b.inputs[..i] ==> InputOk(item, b.execution.required)
      invariant profiles == InputProfiles(b.inputs[..i])
      invariant executions == set item | item in b.inputs[..i] :: item.execution
    {
      var item := b.inputs[i];
      assert b.inputs[..i + 1] == b.inputs[..i] + [item];
      assert b.inputs[..i + 1][..i] == b.inputs[..i];
      if !InputOk(item, b.execution.required) {
        return false, profiles;
      }
      profiles := profiles[item.reportIndex := InputProfile(item).value];
      executions := executions + {item.execution};
    }
    assert b.inputs[..|b.inputs|] == b.inputs;
    ok := executions == {Execution(b.execution.id, b.execution.manifestSha)}
      && J.Ascending(b.execution.observed) && Elements(b.execution.observed) == ProfileSet(profiles);
  }

  method CheckObservations(rows: seq<Row<Merged>>, profiles: map<int, string>) returns (ok: bool)
    ensures ok <==> forall row :: row in rows ==> RowObservationsOk(row, profiles)
  {
    for i := 0 to |rows|
      invariant forall row :: row in rows[..i] ==> RowObservationsOk(row, profiles)
    {
      assert rows[..i + 1] == rows[..i] + [rows[i]];
      var one := CheckRow(rows[i], profiles);
      if !one {
        return false;
      }
    }
    assert rows[..|rows|] == rows;
    return true;
  }

  method CheckRow(row: Row<Merged>, profiles: map<int, string>) returns (ok: bool)
    ensures ok <==> RowObservationsOk(row, profiles)
  {
    var os := row.rest.observations;
    for j := 0 to |os|
      invariant forall o :: o in os[..j] ==> ObservationOk(o, row.name, profiles)
    {
      assert os[..j + 1] == os[..j] + [os[j]];
      if !ObservationOk(os[j], row.name, profiles) {
        return false;
      }
    }
    assert os[..|os|] == os;
    return true;
  }

  method CheckResults(b: BundleBody) returns (ok: bool)
    ensures ok <==> ResultsOk(b)
  {
    var normalized := ValidateGateResults(b.results);
    if normalized.None? || Names(normalized.value) != b.requiredGates {
      return false;
    }
    var counts := ActualCounts(normalized.value);
    if b.counts != counts {
      return false;
    }
    var certified := counts.fail == 0 && counts.skip == 0 && counts.pass == |normalized.value| && b.execution.complete;
    return b.certified == certified;
  }

  /** `verify_release_bundle` */
  method VerifyReleaseBundle(b: Bundle, release: string, requireComplete: bool, manifest: Option<M.Manifest>, env: Env)
    returns (ok: bool)
    ensures ok <==> Verifies(b, release, requireComplete, manifest, env)
  {
    if !HeadOk(b, release, env) || !CoverageOk(b.body.execution) || !RequiredOk(b.body.requiredGates) {
      return false;
    }
    var resultsOk := CheckResults(b.body);
    if !resultsOk || (requireComplete && !b.body.certified) || !M.IsSha256Text(b.body.sourceTree.sha) {
      return false;
    }
    var inputsOk, profiles := CheckInputs(b.body);
    if !inputsOk {
      return false;
    }
    var observationsOk := CheckObservations(NormalRows(b.body.results), profiles);
    if !observationsOk {
      return false;
    }
    if manifest.Some? {
      var m := M.VerifyExecutionManifest(manifest.value, env.manifest, None);
      return m.Some? && ManifestAgrees(b.body, release, m.value);
    }
    return true;
  }
}
