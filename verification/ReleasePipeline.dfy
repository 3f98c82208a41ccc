/** From staging reports to a published release, and back.

    `ReleaseRestsOnReports` says what the reports behind an accepted attestation recorded, and
    `HonestReleaseSucceeds` that reports which recorded it lead to a release that is published. */
module ReleasePipeline {
  import opened Common
  import opened Strings
  import opened Profiles
  import opened StagingReports
  import opened ReleaseCertification
  import opened ReleaseBundles
  import opened BundleAgreement
  import opened ReleaseTrust
  import opened SigningRequests
  import opened ReleaseSigning
  import opened ReleaseAttestation
  import opened ReleaseChain
  import E = Certification
  import J = CanonicalJson
  import L = ReleaseLineage
  import M = ExecutionManifest
  import T = TrustFacts

  // ---------- what reports say ----------

  /** A row of the report, as it was written, says this of the gate. */
  predicate Wrote(report: Report, gate: string, status: string) {
    exists row :: row in report.body.results && Strip(row.name) == gate && Upper(Strip(row.status)) == status
  }

  lemma WroteIsRecorded(report: Report, gate: string, status: string)
    ensures Records(Validated(report), gate, status) <==> Wrote(report, gate, status)
  {
    var raw, rows := report.body.results, NormalRows(report.body.results);
    assert Validated(report).body.results == rows;
    forall row | row in raw ensures NormalRow(row) in rows {
      var i :| 0 <= i < |raw| && raw[i] == row;
      assert rows[i] == NormalRow(row);
    }
    forall row | row in rows ensures exists r :: r in raw && NormalRow(r) == row {
      var i :| 0 <= i < |rows| && rows[i] == row;
      assert raw[i] in raw && NormalRow(raw[i]) == row;
    }
  }

  /** On every gate some report of an entitled profile says PASS and no report says FAIL, and every
      production profile has reported. */
  ghost predicate Covers(reports: seq<Report>) {
    && (forall gate :: gate in GATES ==> IsPassed(reports, gate))
    && (forall p :: p in PRODUCTION ==> HasReported(reports, p))
  }

  ghost predicate HasReported(reports: seq<Report>, p: string) {
    exists r :: r in reports && NormalizeProfile(r.body.runner.profile) == Some(p)
  }

  ghost predicate IsPassed(reports: seq<Report>, gate: string) {
    SomeEntitledWrote(reports, gate, "PASS") && !SomeWrote(reports, gate, "FAIL")
  }

  lemma WroteIsEntitled(reports: seq<Report>, release: string, h: ReportHash, i: nat, gate: string, status: string)
    requires AllPass(reports, release, h) && status != SKIP && i < |reports| && Wrote(reports[i], gate, status)
    ensures Allows(ProfileName(reports[i]), gate) && AnyRecords(ValidatedAll(reports), gate, status)
  {
    assert reports[i] in reports;
    WroteIsRecorded(reports[i], gate, status);
    RecordedIsAuthorized(reports[i], release, h, gate, status);
    assert ValidatedAll(reports)[i] in ValidatedAll(reports);
  }

  ghost predicate SomeWrote(reports: seq<Report>, gate: string, status: string) {
    exists r :: r in reports && Wrote(r, gate, status)
  }

  lemma WroteAny(reports: seq<Report>, release: string, h: ReportHash, gate: string, status: string)
    requires AllPass(reports, release, h) && status != SKIP && SomeWrote(reports, gate, status)
    ensures AnyRecords(ValidatedAll(reports), gate, status) && SomeEntitledWrote(reports, gate, status)
  {
    var r :| r in reports && Wrote(r, gate, status);
    var i :| 0 <= i < |reports| && reports[i] == r;
    WroteIsEntitled(reports, release, h, i, gate, status);
  }

  ghost predicate SomeEntitledWrote(reports: seq<Report>, gate: string, status: string) {
    exists r :: r in reports && Wrote(r, gate, status) && Allows(ProfileName(r), gate)
  }

  lemma AnyWrote(reports: seq<Report>, gate: string, status: string)
    requires AnyRecords(ValidatedAll(reports), gate, status)
    ensures SomeWrote(reports, gate, status)
  {
    var v :| v in ValidatedAll(reports) && MayRecord(v, gate) && Records(v, gate, status);
    var i :| 0 <= i < |reports| && ValidatedAll(reports)[i] == v;
    WroteIsRecorded(reports[i], gate, status);
    assert reports[i] in reports;
  }

  lemma PassedExactlyWhen(reports: seq<Report>, release: string, h: ReportHash, gate: string)
    requires AllPass(reports, release, h)
    ensures IsPassed(reports, gate)
       <==> AnyRecords(ValidatedAll(reports), gate, PASS) && !AnyRecords(ValidatedAll(reports), gate, FAIL)
  {
    var all := ValidatedAll(reports);
    if SomeWrote(reports, gate, PASS) { WroteAny(reports, release, h, gate, PASS); }
    if SomeWrote(reports, gate, FAIL) { WroteAny(reports, release, h, gate, FAIL); }
    if AnyRecords(all, gate, PASS) { AnyWrote(reports, gate, PASS); }
    if AnyRecords(all, gate, FAIL) { AnyWrote(reports, gate, FAIL); }
  }

  lemma ProfilesReported(reports: seq<Report>, p: string)
    requires forall r :: r in reports ==> Profile(r).Some?
    ensures p in ProfilesOf(ValidatedAll(reports)) <==> HasReported(reports, p)
  {
    var names := ProfilesOf(ValidatedAll(reports));
    forall i | 0 <= i < |reports| ensures Some(names[i]) == NormalizeProfile(reports[i].body.runner.profile) {
      assert reports[i] in reports;
    }
    if p in names {
      var i :| 0 <= i < |names| && names[i] == p;
      assert reports[i] in reports;
    }
    if r :| r in reports && NormalizeProfile(r.body.runner.profile) == Some(p) {
      var i :| 0 <= i < |reports| && reports[i] == r;
      assert names[i] == p;
    }
  }

  lemma GoodReportsPass(reports: seq<Report>, manifest: M.Manifest, release: string, gates: seq<string>, env: Env)
    requires Aggregates(reports, manifest, release, gates, env)
    ensures AllPass(reports, release, env.report) && forall r :: r in reports ==> Profile(r).Some?
    ensures M.Returned(manifest).body.requiredGates == GATES && M.Returned(manifest).body.requiredProfiles == PRODUCTION
  {
  }

  /** An aggregated bundle is certified exactly when the reports, as they were written, cover the gates. */
  lemma CertifiedExactlyWhenCovered(reports: seq<Report>, manifest: M.Manifest, release: string, gates: seq<string>,
                                    at: string, env: Env)
    requires Aggregates(reports, manifest, release, gates, env)
    ensures BundleOf(ValidatedAll(reports), M.Returned(manifest), release, at).certified <==> Covers(reports)
  {
    GoodReportsPass(reports, manifest, release, gates, env);
    CertifiedExactlyWhen(ValidatedAll(reports), M.Returned(manifest), release, at);
    forall gate | gate in GATES
      ensures IsPassed(reports, gate)
         <==> AnyRecords(ValidatedAll(reports), gate, PASS) && !AnyRecords(ValidatedAll(reports), gate, FAIL)
    {
      PassedExactlyWhen(reports, release, env.report, gate);
    }
    forall p | p in PRODUCTION ensures p in ProfilesOf(ValidatedAll(reports)) <==> HasReported(reports, p) {
      ProfilesReported(reports, p);
    }
  }

  // ---------- back to the reports ----------

  /** The report is sealed, made for the execution of the manifest, and young enough at every signature. */
  ghost predicate StandsBehind(r: Report, att: Attestation, x: Evidence) {
    && r.evidence == x.world.cert.report(r.body) && r.body.release == "P37" && r.body.schemaVersion == 3
    && r.body.execution.id == x.manifest.body.executionId && Lower(r.body.execution.manifestSha) == x.manifest.evidence
    && r.body.sourceTree == x.world.tree
    && forall e :: e in att.signatures ==>
         At(e.statement.signedAt, x.world.clock) - At(r.body.generatedAt, x.world.clock)
           <= 1_000_000 * (att.request.body.ceremony.limits.maxAge + att.request.body.ceremony.limits.skew)
  }

  ghost predicate IsAggregated(x: Evidence, reports: seq<Report>, gates: seq<string>, at: string) {
    && Aggregates(reports, x.manifest, RELEASE, gates, x.world.cert)
    && x.bundle == Seal(BundleOf(ValidatedAll(reports), M.Returned(x.manifest), RELEASE, at), x.world.cert)
  }

  lemma ReportStandsBehind(att: Attestation, x: Evidence, reports: seq<Report>, gates: seq<string>, at: string, i: nat)
    requires ClockOk(x.world.clock) && IsAccepted(att, x) && IsAggregated(x, reports, gates, at) && i < |reports|
    ensures StandsBehind(reports[i], att, x)
  {
    AcceptedAttestationMeans(att, x);
    assert reports[i] in reports;
    var item := x.bundle.body.inputs[i];
    assert item in x.bundle.body.inputs && item.generatedAt == reports[i].body.generatedAt;
  }

  /** Behind an accepted attestation about an aggregated bundle: reports that cover every gate, each
      sealed, made for the signed execution and tree, and not stale at any signature. */
  lemma ReleaseRestsOnReports(att: Attestation, x: Evidence, reports: seq<Report>, gates: seq<string>, at: string)
    requires ClockOk(x.world.clock) && IsAccepted(att, x) && IsAggregated(x, reports, gates, at)
    ensures Covers(reports) && forall r :: r in reports ==> StandsBehind(r, att, x)
  {
    CertifiedExactlyWhenCovered(reports, x.manifest, RELEASE, gates, at, x.world.cert);
    AcceptedIsCertified(att, x);
    forall r | r in reports ensures StandsBehind(r, att, x) {
      var i :| 0 <= i < |reports| && reports[i] == r;
      ReportStandsBehind(att, x, reports, gates, at, i);
    }
  }

  lemma AcceptedIsCertified(att: Attestation, x: Evidence)
    requires IsAccepted(att, x)
    ensures x.bundle.body.certified
  {
    FixedExactlyWhenInOrder(att, x.keys, x.bundle, x.manifest, x.world, x.crypto);
  }

  // ---------- on to publication ----------

  lemma AggregatesReturned(reports: seq<Report>, manifest: M.Manifest, release: string, gates: seq<string>, env: Env)
    requires Aggregates(reports, manifest, release, gates, env)
    ensures Aggregates(reports, M.Returned(manifest), release, gates, env)
  {
    var m := M.Returned(manifest);
    assert M.Returned(m) == m;
    forall r | r in reports ensures Good(r, m, release, env) { assert Good(r, manifest, release, env); }
  }

  /** Reports that cover the gates, aggregated for the present tree, are evidence for a request. */
  lemma CoveringIsEvidence(x: Evidence, reports: seq<Report>, gates: seq<string>, at: string)
    requires IsAggregated(x, reports, gates, at) && Covers(reports) && x.manifest.body.sourceTree == x.world.tree
    requires forall body :: x.world.cert.bundle(body) != ""
    ensures EvidenceOk(x.bundle, x.manifest, x.world)
  {
    var m := M.Returned(x.manifest);
    CertifiedExactlyWhenCovered(reports, x.manifest, RELEASE, gates, at, x.world.cert);
    AggregatesReturned(reports, x.manifest, RELEASE, gates, x.world.cert);
    assert M.Returned(m) == m;
    ProducerAndVerifierAgree(reports, m, RELEASE, gates, at, x.world.cert);
  }

  lemma BuiltIsAccepted(x: Evidence, reports: seq<Report>, gates: seq<string>, at: string, now: int, id: string)
    requires ClockOk(x.world.clock) && L.IsSha256(id) && IsReady(x, now)
    requires IsAggregated(x, reports, gates, at) && Covers(reports) && x.manifest.body.sourceTree == x.world.tree
    requires forall body :: x.world.cert.bundle(body) != ""
    ensures RequestOk(BuiltRequest(x, now, id), x.bundle, x.manifest, x.world, None)
  {
    ReadyIsBuildable(x, now);
    CoveringIsEvidence(x, reports, gates, at);
    BuiltRequestVerifies(x.bundle, x.manifest, x.world, now, id);
  }

  lemma SignedBySigners(request: Request, signings: seq<Signing>, x: Evidence) returns (att: Attestation)
    requires ClockOk(x.world.clock) && CryptoOk(x.crypto) && RequestOk(request, x.bundle, x.manifest, x.world, None)
    requires var ring := Ring(x.world.policy.value, x.keys, x.world.clock, x.crypto);
             CanSign(request, signings, ring) && Suffice(signings, ring)
    ensures IsAccepted(att, x) && att.request == request && |att.signatures| == |signings|
  {
    HonestCeremonySucceeds(request, signings, x);
    var es := Envelopes(request, signings, x.world.policy.value, x.world.clock, x.crypto);
    att := Assembled(request, es, x.keys, x.bundle, x.manifest, x.world, x.crypto).value;
    assert |multiset(att.signatures)| == |multiset(es)|;
  }

  /** Covering reports, evidence in order at instant `now`, and enough entitled signers: the request that
      is built is signed by all of them and becomes an accepted attestation. */
  lemma HonestReleaseSucceeds(x: Evidence, reports: seq<Report>, gates: seq<string>, at: string, now: int, id: string,
                              signings: seq<Signing>) returns (att: Attestation)
    requires ClockOk(x.world.clock) && CryptoOk(x.crypto) && L.IsSha256(id) && IsReady(x, now)
    requires IsAggregated(x, reports, gates, at) && Covers(reports) && x.manifest.body.sourceTree == x.world.tree
    requires forall body :: x.world.cert.bundle(body) != ""
    requires var ring := Ring(x.world.policy.value, x.keys, x.world.clock, x.crypto);
             CanSign(BuiltRequest(x, now, id), signings, ring) && Suffice(signings, ring)
    ensures IsAccepted(att, x) && att.request == BuiltRequest(x, now, id) && |att.signatures| == |signings|
  {
    BuiltIsAccepted(x, reports, gates, at, now, id);
    att := SignedBySigners(BuiltRequest(x, now, id), signings, x);
  }

  lemma AcceptedNames(att: Attestation, x: Evidence)
    requires ClockOk(x.world.clock) && IsAccepted(att, x)
    ensures att.release == RELEASE && x.world.artifact == Some(att.request.body.artifact)
  {
    AcceptedRelease(att, x);
    AcceptedAttestationMeans(att, x);
  }

  /** And an accepted attestation is published by whoever presents the true head of an earlier release,
      in a checkpoint that names it. */
  lemma AcceptedIsPublished(att: Attestation, x: Evidence, chain: seq<L.Link>, q: L.Request, env: L.Env,
                            encode: Attestation -> E.Payload)
    requires L.ChainOk(chain, env) && chain != [] && L.NumberOf(chain[|chain| - 1].checkpoint.release) < 37
    requires q.presented == Some(Some(chain[|chain| - 1].checkpoint)) && q.channel == chain[|chain| - 1].request.channel
    requires ClockOk(x.world.clock) && IsAccepted(att, x) && q.valid && Carries(q, encode, att, x)
    ensures var c := L.Advance(q, L.HeadHash(chain), false, env);
            c.Some? && NamesRelease(c.value, encode, att, env) && c.value.sequence == J.Num(|chain| + 1)
  {
    ReleaseIs37();
    AcceptedNames(att, x);
    L.HonestAdvanceSucceeds(chain, q, env);
    L.AdvanceFollows(q, L.HeadHash(chain), false, env);
  }

  /** The policy and the artifact are there, and the evidence is timely at `now`. */
  ghost predicate IsReady(x: Evidence, now: int) {
    && x.world.policy.Some? && PolicyOk(x.world.policy.value, x.world.clock) && x.world.artifact.Some?
    && T.IsTimely(x.bundle, x.manifest, x.world.policy.value.ceremony, now, x.world.clock)
  }

  lemma ReadyIsBuildable(x: Evidence, now: int)
    requires ClockOk(x.world.clock) && IsReady(x, now)
    ensures var m := M.Returned(x.manifest);
            && SummaryOk(x.bundle, m, x.world.clock)
            && Fresh(CertificationOf(x.bundle, m, x.world.clock), x.world.policy.value.ceremony, now, x.world.clock)
  {
    T.TimelyExactlyWhen(x.bundle, M.Returned(x.manifest), x.world.policy.value.ceremony, now, x.world.clock);
  }

  ghost function BuiltRequest(x: Evidence, now: int, id: string): Request
    requires ClockOk(x.world.clock) && IsReady(x, now)
  {
    ReadyIsBuildable(x, now);
    var body := BuiltBody(x.bundle, M.Returned(x.manifest), x.world.policy.value, x.world.artifact.value, x.world, now, id);
    Request(body, x.world.requestHash(body))
  }
}
