/** What the seals of the release chain bind: from a signed request down to the reports.

    Each hash over canonical JSON is a function of the record, and no such function is free of
    collisions; so each statement names the two records that would have to collide. */
module ReleaseSeals {
  import opened Common
  import opened Strings
  import opened Profiles
  import opened StagingReports
  import opened ReleaseCertification
  import opened ReleaseBundles
  import opened BundleAgreement
  import opened ReleaseTrust
  import opened SigningRequests
  import M = ExecutionManifest

  // ---------- one seal, one record ----------

  /** Bundles accepted with one evidence text, by whatever calls, have one body. */
  lemma BundleSealBinds(a: Bundle, b: Bundle, releaseA: string, releaseB: string, completeA: bool, completeB: bool,
                        manifestA: Option<M.Manifest>, manifestB: Option<M.Manifest>, env: Env)
    requires Verifies(a, releaseA, completeA, manifestA, env) && Verifies(b, releaseB, completeB, manifestB, env)
    ensures a.evidence == b.evidence ==> a.body == b.body || Collide(env.bundle, a.body, b.body)
  {
  }

  /** Reports validated with one evidence text have one body. */
  lemma ReportSealBinds(a: Report, b: Report, releaseA: string, releaseB: string, manifestA: Option<M.Manifest>,
                        manifestB: Option<M.Manifest>, h: ReportHash, hs: M.Hashes)
    requires Passes(a, releaseA, manifestA, h, hs) && Passes(b, releaseB, manifestB, h, hs)
    ensures a.evidence == b.evidence ==> a.body == b.body || Collide(h, a.body, b.body)
  {
  }

  /** Manifests accepted with one evidence text have one body; with one execution id they are about
      one source tree. */
  lemma ManifestSealBinds(a: M.Manifest, b: M.Manifest, hs: M.Hashes)
    requires M.Accepts(a, hs) && M.Accepts(b, hs)
    ensures a.evidence == b.evidence ==> a.body == b.body || Collide(hs.body, a.body, b.body)
    ensures a.body.executionId == b.body.executionId ==>
              a.body.sourceTree == b.body.sourceTree || Collide(hs.id, IdOf(a.body.sourceTree), IdOf(b.body.sourceTree))
  {
  }

  /** What an execution id is the hash of: the release, the tree, the nine profiles, the nine gates
      and the fixed paths. */
  function IdOf(tree: M.Tree): M.IdPayload {
    M.IdPayload("P37", tree, PRODUCTION, GATES, "certification-execution-manifest.json", "certification-reports")
  }

  /** Requests accepted with one hash, the one that is signed, have one body. */
  lemma RequestHashBinds(a: Request, b: Request, bundleA: Bundle, bundleB: Bundle, manifestA: M.Manifest,
                         manifestB: M.Manifest, w: World, v: World, openA: Option<int>, openB: Option<int>)
    requires RequestOk(a, bundleA, manifestA, w, openA) && RequestOk(b, bundleB, manifestB, v, openB)
    requires w.requestHash == v.requestHash
    ensures a.sha == b.sha ==> a.body == b.body || Collide(w.requestHash, a.body, b.body)
  {
  }

  // ---------- from the signed hash down ----------

  /** Two accepted requests with one hash are about one artifact, tree, bundle, manifest and policy,
      unless records of one kind collide. */
  lemma SignedHashBindsAll(a: Request, b: Request, bundleA: Bundle, bundleB: Bundle, manifestA: M.Manifest,
                           manifestB: M.Manifest, w: World, v: World, openA: Option<int>, openB: Option<int>)
    requires RequestOk(a, bundleA, manifestA, w, openA) && RequestOk(b, bundleB, manifestB, v, openB)
    requires w.requestHash == v.requestHash && w.policyHash == v.policyHash && w.cert == v.cert && a.sha == b.sha
    ensures || Collide(w.requestHash, a.body, b.body)
            || (&& w.artifact == v.artifact && w.tree == v.tree
                && (bundleA.body == bundleB.body || Collide(w.cert.bundle, bundleA.body, bundleB.body))
                && (manifestA.body == manifestB.body || Collide(w.cert.manifest.body, manifestA.body, manifestB.body))
                && (w.policy == v.policy || Collide(w.policyHash, w.policy.value, v.policy.value)))
  {
    if a.body == b.body {
      BindsTheTree(a, bundleA, manifestA, w, openA);
      BindsTheTree(b, bundleB, manifestB, v, openB);
    }
  }

  lemma BindsTheTree(q: Request, bundle: Bundle, manifest: M.Manifest, w: World, open: Option<int>)
    requires RequestOk(q, bundle, manifest, w, open)
    ensures q.body.sourceTree == w.tree && w.artifact == Some(q.body.artifact)
    ensures q.body.certification.bundleSha == bundle.evidence == w.cert.bundle(bundle.body)
    ensures q.body.certification.manifestSha == manifest.evidence == w.cert.manifest.body(manifest.body)
    ensures w.policy.Some? && q.body.trust.policySha == w.policyHash(w.policy.value)
  {
  }

  // ---------- from the bundle down ----------

  /** The inputs of an aggregated bundle are its reports: in their order, each with its own evidence,
      time, runner, runtime and true counts. */
  lemma InputsAreReports(reports: seq<Report>, manifest: M.Manifest, release: string, gates: seq<string>, now: string,
                         env: Env, i: nat)
    requires Aggregates(reports, manifest, release, gates, env) && i < |reports|
    ensures var b, inputs := reports[i].body, BundleOf(ValidatedAll(reports), M.Returned(manifest), release, now).inputs;
            && |inputs| == |reports|
            && inputs[i].reportIndex == i && inputs[i].evidence == reports[i].evidence == env.report(b)
            && inputs[i].generatedAt == b.generatedAt && inputs[i].runtime == b.runtime
            && inputs[i].execution == Execution(manifest.body.executionId, manifest.evidence)
            && Some(inputs[i].runner.profile) == NormalizeProfile(b.runner.profile) && inputs[i].runner.id == b.runner.id
            && inputs[i].counts == ActualCounts(NormalRows(b.results))
  {
    assert reports[i] in reports;
  }

  /** One bundle, one list of reports. */
  lemma BundleBindsReports(a: seq<Report>, b: seq<Report>, manifestA: M.Manifest, manifestB: M.Manifest, release: string,
                           gates: seq<string>, nowA: string, nowB: string, env: Env)
    requires Aggregates(a, manifestA, release, gates, env) && Aggregates(b, manifestB, release, gates, env)
    requires BundleOf(ValidatedAll(a), M.Returned(manifestA), release, nowA)
          == BundleOf(ValidatedAll(b), M.Returned(manifestB), release, nowB)
    ensures |a| == |b| && nowA == nowB
    ensures forall i :: 0 <= i < |a| ==> a[i].body == b[i].body || Collide(env.report, a[i].body, b[i].body)
  {
    var x := BundleOf(ValidatedAll(a), M.Returned(manifestA), release, nowA);
    assert |a| == |x.inputs| == |b|;
    forall i | 0 <= i < |a| ensures a[i].body == b[i].body || Collide(env.report, a[i].body, b[i].body) {
      InputsAreReports(a, manifestA, release, gates, nowA, env, i);
      InputsAreReports(b, manifestB, release, gates, nowB, env, i);
    }
  }

  /** The observation repeats the report's own evidence, date and runner, and what its row of that name
      says, cleaned. */
  ghost predicate Repeats(o: Observation, report: Report, i: nat, gate: string) {
    && o.reportIndex == i && o.evidence == report.evidence && o.generatedAt == report.body.generatedAt
    && Some(o.runnerProfile) == NormalizeProfile(report.body.runner.profile) && o.runnerId == report.body.runner.id
    && exists row :: row in report.body.results && Strip(row.name) == gate && o.status == Upper(Strip(row.status))
                     && o.output == row.rest.output && o.duration == row.rest.duration
  }

  lemma GateHasRow(report: Report, release: string, h: ReportHash, gate: string)
    requires ReportOk(report, release, h) && gate in GATES
    ensures var row := Lookup(Validated(report).body.results, gate);
            && row.Some?
            && exists raw :: raw in report.body.results && Strip(raw.name) == gate && row.value == NormalRow(raw)
  {
    var raw, rows := report.body.results, NormalRows(report.body.results);
    var j :| 0 <= j < |GATES| && GATES[j] == gate;
    assert Names(rows)[j] == rows[j].name == gate;
    LookupFinds(rows, gate);
    assert rows[j] in rows && raw[j] in raw && rows[j] == NormalRow(raw[j]);
  }

  lemma OneObservation(report: Report, release: string, h: ReportHash, i: nat, gate: string)
    requires ReportOk(report, release, h) && gate in GATES
    ensures |ObservationOf(Validated(report), i, gate)| == 1
    ensures Repeats(ObservationOf(Validated(report), i, gate)[0], report, i, gate)
  {
    GateHasRow(report, release, h, gate);
  }

  ghost predicate AllRepeat(os: seq<Observation>, reports: seq<Report>, gate: string) {
    |os| == |reports| && forall i :: 0 <= i < |os| ==> Repeats(os[i], reports[i], i, gate)
  }

  lemma LastObservation(reports: seq<Report>, gate: string)
    requires reports != []
    ensures var n := |reports| - 1;
            Observations(ValidatedAll(reports), gate)
            == Observations(ValidatedAll(reports[..n]), gate) + ObservationOf(Validated(reports[n]), n, gate)
  {
    var n := |reports| - 1;
    assert ValidatedAll(reports)[..n] == ValidatedAll(reports[..n]);
  }

  lemma OneMoreRepeats(os: seq<Observation>, reports: seq<Report>, o: Observation, gate: string)
    requires reports != [] && AllRepeat(os, reports[..|reports| - 1], gate)
    requires Repeats(o, reports[|reports| - 1], |reports| - 1, gate)
    ensures AllRepeat(os + [o], reports, gate)
  {
    forall i | 0 <= i < |reports| ensures Repeats((os + [o])[i], reports[i], i, gate) {
      if i < |os| { assert Repeats(os[i], reports[..|reports| - 1][i], i, gate); }
    }
  }

  lemma {:induction false} ObservationsRepeat(reports: seq<Report>, release: string, h: ReportHash, gate: string)
    requires AllPass(reports, release, h) && gate in GATES
    ensures AllRepeat(Observations(ValidatedAll(reports), gate), reports, gate)
  {
    if reports != [] {
      var n := |reports| - 1;
      ObservationsRepeat(reports[..n], release, h, gate);
      assert reports[n] in reports;
      OneObservation(reports[n], release, h, n, gate);
      var last := ObservationOf(Validated(reports[n]), n, gate);
      assert last == [last[0]];
      LastObservation(reports, gate);
      OneMoreRepeats(Observations(ValidatedAll(reports[..n]), gate), reports, last[0], gate);
    }
  }

  /** Each gate of an aggregated bundle has one observation for each report, in their order. */
  lemma ObservationsAreRows(reports: seq<Report>, manifest: M.Manifest, release: string, gates: seq<string>, now: string,
                            env: Env, j: nat)
    requires Aggregates(reports, manifest, release, gates, env) && j < 9
    ensures var rows := BundleOf(ValidatedAll(reports), M.Returned(manifest), release, now).results;
            && |rows| == 9 && rows[j].name == GATES[j]
            && (rows[j].rest.reason.SomeFail? <==> rows[j].status == "FAIL")
            && (rows[j].rest.reason.PassAndNoFail? <==> rows[j].status == "PASS")
            && AllRepeat(rows[j].rest.observations, reports, GATES[j])
  {
    ObservationsRepeat(reports, release, env.report, GATES[j]);
  }
}
