/** The bundle an aggregation makes is the bundle the verifier accepts. */
module BundleAgreement {
  import opened Common
  import opened Strings
  import opened Permutations
  import opened Profiles
  import opened StagingReports
  import opened ReleaseCertification
  import opened ReleaseBundles
  import J = CanonicalJson
  import M = ExecutionManifest

  // ---------- sorted names ----------

  lemma {:induction false} SortedNamesSorts(names: seq<string>)
    ensures J.Ascending(M.SortedNames(names)) && Elements(M.SortedNames(names)) == Elements(names)
  {
    if names != [] {
      var rest := M.SortedNames(names[1..]);
      SortedNamesSorts(names[1..]);
      assert Elements(names) == Elements(names[1..]) + {names[0]};
      assert forall x :: x in rest <==> x in Elements(rest);
      if names[0] !in rest {
        J.InsertKeepsOrder(names[0], rest);
      }
    }
  }

  lemma AscendingHasNoRepeats(names: seq<string>)
    requires J.Ascending(names)
    ensures NoRepeats(names)
  {
    forall i, j | 0 <= i < j < |names| ensures names[i] != names[j] {
      J.BeforeIsStrict(names[i], names[j]);
    }
    NoRepeatsExactlyWhen(names);
  }

  // ---------- normal forms ----------

  lemma StatusIsNormal(status: string)
    requires IsStatus(status)
    ensures Upper(Strip(status)) == status
  {
    StrippedIsFixed(status);
    UpperOfPlain(status);
  }

  lemma {:induction false} UpperOfPlain(s: string)
    requires forall i :: 0 <= i < |s| ==> UpperChar(s[i]) == s[i]
    ensures Upper(s) == s
  {
    if s != "" {
      UpperOfPlain(s[1..]);
    }
  }

  lemma GateIsNormal(i: nat)
    requires i < |GATES|
    ensures Strip(GATES[i]) == GATES[i] && GATES[i] != ""
  {
  }

  lemma MergedRowsAreNormal(validated: seq<Report>)
    ensures var rows := MergedRows(validated, GATES);
            NormalRows(rows) == rows && RowsOk(rows) && Names(rows) == GATES
  {
    var rows := MergedRows(validated, GATES);
    forall i | 0 <= i < |GATES| ensures NormalRow(rows[i]) == rows[i] && rows[i].name != "" && IsStatus(rows[i].status) {
      GateIsNormal(i);
      StatusIsNormal(rows[i].status);
    }
    assert Names(rows) == GATES;
    ConstantsAreDistinct();
  }

  // ---------- what a validated report brings ----------

  ghost predicate Clean(v: Report, m: M.Manifest) {
    var b := v.body;
    && RowsOk(b.results) && Authorized(b.runner.profile, b.results)
    && NormalizeProfile(b.runner.profile) == Some(b.runner.profile)
    && b.runner.profile in m.body.requiredProfiles
    && b.execution == Execution(m.body.executionId, m.evidence)
  }

  lemma GoodIsClean(report: Report, manifest: M.Manifest, release: string, env: Env)
    requires Good(report, manifest, release, env)
    ensures Clean(Validated(report), M.Returned(manifest))
  {
    NormalizeIsIdempotent(report.body.runner.profile);
  }

  ghost predicate AllClean(validated: seq<Report>, m: M.Manifest) {
    forall i :: 0 <= i < |validated| ==> Clean(validated[i], m)
  }

  /** Reports numbered in order: the map gives each number its report's profile. */
  lemma {:induction false} NumberedProfiles(inputs: seq<Input>)
    requires forall k :: 0 <= k < |inputs| ==> inputs[k].reportIndex == k
    ensures forall k :: k in InputProfiles(inputs) <==> 0 <= k < |inputs|
    ensures forall k :: 0 <= k < |inputs| ==> InputProfiles(inputs)[k] == ProfileOf(inputs[k])
  {
    if inputs != [] {
      var n := |inputs| - 1;
      NumberedProfiles(inputs[..n]);
      var before := InputProfiles(inputs[..n]);
      assert InputProfiles(inputs) == before[n := ProfileOf(inputs[n])];
      forall k | 0 <= k < n ensures before[k] == ProfileOf(inputs[k]) { assert inputs[..n][k] == inputs[k]; }
    }
  }

  lemma InputProfileIs(validated: seq<Report>, m: M.Manifest, k: nat)
    requires AllClean(validated, m) && k < |validated|
    ensures ProfileOf(InputsOf(validated)[k]) == validated[k].body.runner.profile
  {
    assert Clean(validated[k], m);
  }

  lemma InputProfilesAre(validated: seq<Report>, m: M.Manifest)
    requires AllClean(validated, m)
    ensures forall k :: k in InputProfiles(InputsOf(validated)) <==> 0 <= k < |validated|
    ensures forall k :: 0 <= k < |validated| ==>
              InputProfiles(InputsOf(validated))[k] == validated[k].body.runner.profile
  {
    NumberedProfiles(InputsOf(validated));
    forall k | 0 <= k < |validated| ensures ProfileOf(InputsOf(validated)[k]) == validated[k].body.runner.profile {
      InputProfileIs(validated, m, k);
    }
  }

  lemma ValuesOfNumbered(profiles: map<int, string>, names: seq<string>)
    requires forall k :: k in profiles <==> 0 <= k < |names|
    requires forall k :: 0 <= k < |names| ==> profiles[k] == names[k]
    ensures ProfileSet(profiles) == Elements(names)
  {
    forall p: string ensures p in ProfileSet(profiles) <==> p in Elements(names) {
      if p in ProfileSet(profiles) {
        var k :| k in profiles && profiles[k] == p;
        assert names[k] == p;
      }
      if p in names {
        var k :| 0 <= k < |names| && names[k] == p;
        assert k in profiles && profiles[k] == p;
      }
    }
  }

  lemma InputValues(validated: seq<Report>, m: M.Manifest)
    requires AllClean(validated, m)
    ensures ProfileSet(InputProfiles(InputsOf(validated))) == Elements(ProfilesOf(validated))
  {
    InputProfilesAre(validated, m);
    ValuesOfNumbered(InputProfiles(InputsOf(validated)), ProfilesOf(validated));
  }

  lemma ProducedInputs(validated: seq<Report>, m: M.Manifest, release: string, now: string)
    requires AllClean(validated, m) && validated != []
    ensures InputsOk(BundleOf(validated, m, release, now))
  {
    var b := BundleOf(validated, m, release, now);
    InputValues(validated, m);
    SortedNamesSorts(ProfilesOf(validated));
    forall item | item in b.inputs
      ensures InputOk(item, b.execution.required) && item.execution == Execution(m.body.executionId, m.evidence)
    {
      var i :| 0 <= i < |validated| && b.inputs[i] == item;
      assert Clean(validated[i], m);
    }
    assert b.inputs[0] in b.inputs;
  }

  lemma ProducedCoverage(validated: seq<Report>, m: M.Manifest)
    requires AllClean(validated, m) && NoRepeats(m.body.requiredProfiles)
    requires M.IsSha256Text(m.body.executionId) && M.IsSha256Text(m.evidence)
    ensures CoverageOk(CoverageOf(validated, m))
  {
    var e := CoverageOf(validated, m);
    SortedNamesSorts(ProfilesOf(validated));
    AscendingHasNoRepeats(e.observed);
    forall p | p in e.observed ensures p in e.required {
      assert p in Elements(ProfilesOf(validated));
      var i :| 0 <= i < |validated| && ProfilesOf(validated)[i] == p;
      assert Clean(validated[i], m);
    }
  }

  /** What one report contributes to a gate passes the verifier's checks. */
  ghost predicate ContributesOk(report: Report, n: nat, gate: string, profiles: map<int, string>) {
    forall o :: o in ObservationOf(report, n, gate) ==> ObservationOk(o, gate, profiles)
  }

  lemma {:induction false} CollectedObservations(validated: seq<Report>, gate: string, profiles: map<int, string>)
    requires forall n :: 0 <= n < |validated| ==> ContributesOk(validated[n], n, gate, profiles)
    ensures forall o :: o in Observations(validated, gate) ==> ObservationOk(o, gate, profiles)
  {
    if validated != [] {
      var last := |validated| - 1;
      CollectedObservations(validated[..last], gate, profiles);
      assert ContributesOk(validated[last], last, gate, profiles);
    }
  }

  /** Every observation names its report, that report's profile, and what the profile may do. */
  lemma ProducedObservations(validated: seq<Report>, gate: string, m: M.Manifest)
    requires AllClean(validated, m)
    ensures forall o :: o in Observations(validated, gate) ==>
              ObservationOk(o, gate, InputProfiles(InputsOf(validated)))
  {
    forall n | 0 <= n < |validated|
      ensures ContributesOk(validated[n], n, gate, InputProfiles(InputsOf(validated)))
    {
      ObservationIsOk(validated, n, gate, m);
    }
    CollectedObservations(validated, gate, InputProfiles(InputsOf(validated)));
  }

  lemma ObservationIsOk(validated: seq<Report>, n: nat, gate: string, m: M.Manifest)
    requires AllClean(validated, m) && n < |validated|
    ensures ContributesOk(validated[n], n, gate, InputProfiles(InputsOf(validated)))
  {
    InputProfilesAre(validated, m);
    var report := validated[n];
    assert Clean(report, m);
    LookupFinds(report.body.results, gate);
    if Lookup(report.body.results, gate).Some? {
      var row := Lookup(report.body.results, gate).value;
      assert row in report.body.results;
      var i :| 0 <= i < |report.body.results| && report.body.results[i] == row;
      assert IsStatus(row.status);
    }
  }

  // ---------- agreement ----------

  /** What a manifest contributes once it is accepted and a report is bound to it. */
  ghost predicate Usable(m: M.Manifest, release: string) {
    && m.body.release == release
    && m.body.requiredGates == GATES && NoRepeats(m.body.requiredProfiles)
    && M.IsSha256Text(m.body.executionId) && M.IsSha256Text(m.evidence) && M.IsSha256Text(m.body.sourceTree.sha)
  }

  lemma AcceptedIsUsable(report: Report, manifest: M.Manifest, release: string, env: Env)
    requires M.Accepts(manifest, env.manifest) && Good(report, manifest, release, env)
    ensures Usable(M.Returned(manifest), release)
  {
    ConstantsAreDistinct();
    DistinctSize(PRODUCTION);
  }

  lemma ProducedResults(validated: seq<Report>, m: M.Manifest, release: string, now: string)
    requires m.body.requiredGates == GATES
    ensures RequiredOk(GATES) && ResultsOk(BundleOf(validated, m, release, now))
  {
    MergedRowsAreNormal(validated);
    ConstantsAreDistinct();
    DistinctSize(GATES);
  }

  lemma ProducedRowsObserve(validated: seq<Report>, m: M.Manifest)
    requires AllClean(validated, m)
    ensures forall row :: row in NormalRows(MergedRows(validated, GATES)) ==>
              RowObservationsOk(row, InputProfiles(InputsOf(validated)))
  {
    MergedRowsAreNormal(validated);
    forall row | row in MergedRows(validated, GATES)
      ensures RowObservationsOk(row, InputProfiles(InputsOf(validated)))
    {
      ProducedObservations(validated, row.name, m);
    }
  }

  lemma ProducedVerifies(validated: seq<Report>, m: M.Manifest, release: string, now: string, complete: bool, env: Env)
    requires AllClean(validated, m) && validated != [] && Usable(m, release)
    requires env.bundle(BundleOf(validated, m, release, now)) != ""
    ensures var b := Seal(BundleOf(validated, m, release, now), env);
            Verifies(b, release, complete, None, env) <==> (complete ==> b.body.certified)
    ensures ManifestAgrees(BundleOf(validated, m, release, now), release, m)
  {
    var b := Seal(BundleOf(validated, m, release, now), env);
    ProducedCoverage(validated, m);
    ProducedResults(validated, m, release, now);
    ProducedInputs(validated, m, release, now);
    ProducedRowsObserve(validated, m);
    assert b.body.results == MergedRows(validated, GATES) && b.body.inputs == InputsOf(validated);
    assert HeadOk(b, release, env);
  }

  lemma VerifiesUnderManifest(b: Bundle, release: string, complete: bool, manifest: M.Manifest, env: Env)
    requires M.Accepts(manifest, env.manifest) && ManifestAgrees(b.body, release, M.Returned(manifest))
    ensures Verifies(b, release, complete, Some(manifest), env) <==> Verifies(b, release, complete, None, env)
  {
  }

  lemma GoodAreClean(reports: seq<Report>, manifest: M.Manifest, release: string, env: Env)
    requires forall r :: r in reports ==> Good(r, manifest, release, env)
    ensures AllClean(ValidatedAll(reports), M.Returned(manifest))
  {
    forall i | 0 <= i < |reports| ensures Clean(ValidatedAll(reports)[i], M.Returned(manifest)) {
      assert reports[i] in reports;
      GoodIsClean(reports[i], manifest, release, env);
    }
  }

  /** Producer and verifier agree.  Whenever aggregation returns, for any number and order of
      reports, the verifier accepts the bundle under the same manifest; and it accepts it as
      complete exactly when the bundle says it is certified. */
  lemma ProducerAndVerifierAgree(reports: seq<Report>, manifest: M.Manifest, release: string, gates: seq<string>,
                                 now: string, env: Env)
    requires Aggregates(reports, manifest, release, gates, env) && forall body :: env.bundle(body) != ""
    ensures var b := Seal(BundleOf(ValidatedAll(reports), M.Returned(manifest), release, now), env);
            && Verifies(b, release, false, Some(manifest), env)
            && (Verifies(b, release, true, Some(manifest), env) <==> b.body.certified)
  {
    var m := M.Returned(manifest);
    var validated := ValidatedAll(reports);
    GoodAreClean(reports, manifest, release, env);
    assert reports[0] in reports;
    AcceptedIsUsable(reports[0], manifest, release, env);
    var b := Seal(BundleOf(validated, m, release, now), env);
    ProducedVerifies(validated, m, release, now, false, env);
    ProducedVerifies(validated, m, release, now, true, env);
    VerifiesUnderManifest(b, release, false, manifest, env);
    VerifiesUnderManifest(b, release, true, manifest, env);
  }

  // ---------- certification ----------

  lemma GateStatusIsPass(validated: seq<Report>, gate: string)
    ensures GateStatus(validated, gate) == PASS
       <==> AnyRecords(validated, gate, PASS) && !AnyRecords(validated, gate, FAIL)
  {
    assert Rank(FAIL) == 2 && Rank(PASS) == 1 && Rank(SKIP) == 0;
  }

  lemma CoverageIsComplete(validated: seq<Report>, m: M.Manifest)
    ensures CoverageOf(validated, m).complete
       <==> forall p :: p in m.body.requiredProfiles ==> p in ProfilesOf(validated)
  {
    var observed := M.SortedNames(ProfilesOf(validated));
    NothingMissing(m.body.requiredProfiles, observed);
    SortedNamesSorts(ProfilesOf(validated));
    assert forall p :: p in observed <==> p in Elements(observed);
  }

  /** Certified: every required gate has an authorized PASS and no authorized FAIL, and every
      required profile has reported. */
  lemma CertifiedExactlyWhen(validated: seq<Report>, m: M.Manifest, release: string, now: string)
    ensures BundleOf(validated, m, release, now).certified
       <==> && (forall gate :: gate in m.body.requiredGates ==>
                  AnyRecords(validated, gate, PASS) && !AnyRecords(validated, gate, FAIL))
            && (forall p :: p in m.body.requiredProfiles ==> p in ProfilesOf(validated))
  {
    var gates := m.body.requiredGates;
    var rows := MergedRows(validated, gates);
    FullPassExactlyWhen(rows);
    CoverageIsComplete(validated, m);
    forall i | 0 <= i < |gates|
      ensures rows[i].status == PASS
         <==> AnyRecords(validated, gates[i], PASS) && !AnyRecords(validated, gates[i], FAIL)
    {
      GateStatusIsPass(validated, gates[i]);
    }
    assert forall gate :: gate in gates <==> exists i :: 0 <= i < |gates| && gates[i] == gate;
  }

  /** The same reports, in another order or repeated, give the same verdict. */
  lemma SameReportsSameVerdict(a: seq<Report>, b: seq<Report>, m: M.Manifest, release: string, now: string)
    requires Elements(a) == Elements(b)
    ensures BundleOf(a, m, release, now).certified == BundleOf(b, m, release, now).certified
  {
    CertifiedExactlyWhen(a, m, release, now);
    CertifiedExactlyWhen(b, m, release, now);
    assert forall r :: r in a <==> r in Elements(a);
    assert forall r :: r in b <==> r in Elements(b);
    forall p ensures p in ProfilesOf(a) <==> p in ProfilesOf(b) {
      ProfilesAreOfSet(a, p);
      ProfilesAreOfSet(b, p);
    }
    forall gate, status ensures AnyRecords(a, gate, status) == AnyRecords(b, gate, status) {}
  }

  lemma ProfilesAreOfSet(validated: seq<Report>, p: string)
    ensures p in ProfilesOf(validated) <==> exists r :: r in validated && r.body.runner.profile == p
  {
    if p in ProfilesOf(validated) {
      var i :| 0 <= i < |validated| && ProfilesOf(validated)[i] == p;
      assert validated[i] in validated;
    }
    forall r | r in validated && r.body.runner.profile == p ensures p in ProfilesOf(validated) {
      var i :| 0 <= i < |validated| && validated[i] == r;
      assert ProfilesOf(validated)[i] == p;
    }
  }

  lemma {:induction false} UniqueIsFixed(names: seq<string>)
    requires Distinct(names) && forall i :: 0 <= i < |names| ==> names[i] != "" && Strip(names[i]) == names[i]
    ensures UniqueStripped(names) == names
  {
    if names != [] {
      UniqueIsFixed(names[..|names| - 1]);
    }
  }

  /** The gates aggregation uses when none are given are the ones it asks for. */
  lemma DefaultGatesAreRequired()
    ensures UniqueStripped(GATES) == GATES
  {
    ConstantsAreDistinct();
    forall i | 0 <= i < |GATES| ensures GATES[i] != "" && Strip(GATES[i]) == GATES[i] { GateIsNormal(i); }
    UniqueIsFixed(GATES);
  }

  lemma {:induction false} ProfilesComeFromInputs(inputs: seq<Input>)
    ensures forall p :: p in ProfileSet(InputProfiles(inputs)) ==> exists item :: item in inputs && ProfileOf(item) == p
  {
    if inputs != [] {
      var last := inputs[|inputs| - 1];
      ProfilesComeFromInputs(inputs[..|inputs| - 1]);
      forall p | p in ProfileSet(InputProfiles(inputs)) ensures exists item :: item in inputs && ProfileOf(item) == p {
        if p == ProfileOf(last) {
          assert last in inputs;
        } else {
          assert p in ProfileSet(InputProfiles(inputs[..|inputs| - 1]));
          var item :| item in inputs[..|inputs| - 1] && ProfileOf(item) == p;
          assert item in inputs;
        }
      }
    }
  }

  lemma CompleteCoverage(b: BundleBody)
    requires CoverageOk(b.execution) && b.execution.complete && InputsOk(b)
    ensures forall p :: p in b.execution.required ==> exists item :: item in b.inputs && ProfileOf(item) == p
  {
    NothingMissing(b.execution.required, b.execution.observed);
    ProfilesComeFromInputs(b.inputs);
    forall p | p in b.execution.required ensures exists item :: item in b.inputs && ProfileOf(item) == p {
      assert p in Elements(b.execution.observed);
    }
  }

  lemma AllRowsPass(b: BundleBody)
    requires ResultsOk(b) && b.certified
    ensures b.execution.complete && forall row :: row in NormalRows(b.results) ==> row.status == PASS
  {
    FullPassExactlyWhen(NormalRows(b.results));
  }

  /** What a bundle accepted as complete stands for, whoever made it: the required gates in order,
      each with a PASS, and an input report from every production profile, all for the execution and
      source tree of the manifest. */
  lemma CompleteBundleMeans(b: Bundle, release: string, manifest: M.Manifest, env: Env)
    requires Verifies(b, release, true, Some(manifest), env)
    ensures Names(NormalRows(b.body.results)) == GATES
    ensures forall row :: row in NormalRows(b.body.results) ==> row.status == PASS
    ensures forall p :: p in PRODUCTION ==> exists item :: item in b.body.inputs && ProfileOf(item) == p
    ensures forall item :: item in b.body.inputs ==>
              item.execution == Execution(manifest.body.executionId, manifest.evidence)
    ensures b.body.sourceTree == manifest.body.sourceTree
  {
    AllRowsPass(b.body);
    CompleteCoverage(b.body);
    OneExecution(b.body);
  }

  lemma OneExecution(b: BundleBody)
    requires InputsOk(b)
    ensures forall item :: item in b.inputs ==> item.execution == Execution(b.execution.id, b.execution.manifestSha)
  {
    forall item | item in b.inputs
      ensures item.execution == Execution(b.execution.id, b.execution.manifestSha)
    {
      var executions := set i | i in b.inputs :: i.execution;
      assert item.execution in executions;
      assert executions == {Execution(b.execution.id, b.execution.manifestSha)};
    }
  }
}
