/** What it says of a record that its verifier accepts it, in terms of the record alone. */
module ReleaseFacts {
  import opened Common
  import opened Strings
  import opened Permutations
  import opened Profiles
  import opened StagingReports
  import opened ReleaseCertification
  import opened ReleaseBundles
  import opened BundleAgreement
  import J = CanonicalJson
  import M = ExecutionManifest

  /** Sixty-four hexadecimal digits in either case. */
  predicate IsHexText(s: string) { |s| == 64 && forall i :: 0 <= i < |s| ==> s[i] in "0123456789abcdefABCDEF" }

  lemma HexCharIs(c: char)
    ensures '0' <= c <= '9' || 'a' <= LowerChar(c) <= 'f' <==> c in "0123456789abcdefABCDEF"
  {
  }

  lemma HexTextIs(s: string)
    ensures M.IsSha256Text(s) <==> IsHexText(s)
  {
    forall i | 0 <= i < |s| ensures '0' <= s[i] <= '9' || 'a' <= LowerChar(s[i]) <= 'f' <==> s[i] in "0123456789abcdefABCDEF" {
      HexCharIs(s[i]);
    }
  }

  // ---------- rows ----------

  /** The places of the rows with that status. */
  function Places<X>(rows: seq<Row<X>>, status: string): set<int> {
    set i | 0 <= i < |rows| && rows[i].status == status
  }

  lemma {:induction false} CountIsTally<X>(rows: seq<Row<X>>, status: string)
    ensures CountOf(rows, status) == |Places(rows, status)|
  {
    if rows != [] {
      var n := |rows| - 1;
      CountIsTally(rows[..n], status);
      assert Places(rows, status) == Places(rows[..n], status) + if rows[n].status == status then {n} else {};
    }
  }

  /** The rows, their names and statuses cleaned, are the gates in order, each with a status, and
      the counts are true. */
  ghost predicate AreResults<X(!new)>(raw: seq<Row<X>>, gates: seq<string>, counts: Counts) {
    var rows := NormalRows(raw);
    && |rows| == |gates| && (forall i :: 0 <= i < |rows| ==> rows[i].name == gates[i])
    && (forall i :: 0 <= i < |rows| ==> rows[i].status in {"PASS", "FAIL", "SKIP"})
    && counts.pass == |Places(rows, "PASS")| && counts.fail == |Places(rows, "FAIL")| && counts.skip == |Places(rows, "SKIP")|
  }

  lemma ResultsAre<X(!new)>(raw: seq<Row<X>>, gates: seq<string>, counts: Counts)
    requires var rows := NormalRows(raw); RowsOk(rows) && Names(rows) == gates && counts == ActualCounts(rows)
    ensures AreResults(raw, gates, counts)
  {
    var rows := NormalRows(raw);
    CountIsTally(rows, PASS);
    CountIsTally(rows, FAIL);
    CountIsTally(rows, SKIP);
    forall i | 0 <= i < |rows| ensures rows[i].name == gates[i] { assert Names(rows)[i] == rows[i].name; }
  }

  // ---------- a report ----------

  lemma TallyIsCount<X>(rows: seq<Row<X>>, counts: Counts)
    ensures counts == ActualCounts(rows) <==>
            counts.pass == |Places(rows, "PASS")| && counts.fail == |Places(rows, "FAIL")| && counts.skip == |Places(rows, "SKIP")|
  {
    CountIsTally(rows, PASS);
    CountIsTally(rows, FAIL);
    CountIsTally(rows, SKIP);
  }

  /** For the nine gates the facts about the rows are all that is asked of them. */
  lemma ResultsAreExactly<X(!new)>(raw: seq<Row<X>>, counts: Counts)
    ensures var rows := NormalRows(raw);
            RowsOk(rows) && Names(rows) == GATES && counts == ActualCounts(rows) <==> AreResults(raw, GATES, counts)
  {
    var rows := NormalRows(raw);
    TallyIsCount(rows, counts);
    if AreResults(raw, GATES, counts) {
      ConstantsAreDistinct();
      assert Names(rows) == GATES;
      forall i | 0 <= i < |rows| ensures rows[i].name != "" { GateIsNormal(i); }
    } else if RowsOk(rows) && Names(rows) == GATES && counts == ActualCounts(rows) {
      ResultsAre(raw, GATES, counts);
    }
  }

  /** The report carries its own hash and counts, judges the nine gates, and says PASS or FAIL only of
      gates its runner's profile may judge. */
  ghost predicate IsReport(report: Report, release: string, h: ReportHash) {
    var b, profile := report.body, NormalizeProfile(report.body.runner.profile);
    && report.evidence == h(b) != "" && b.release == release && b.schemaVersion == 3
    && IsHexText(b.execution.id) && IsHexText(Lower(b.execution.manifestSha))
    && IsHexText(Lower(Strip(b.sourceTree.sha))) && b.sourceTree.fileCount >= 1
    && (b.runner.id.Some? ==> |b.runner.id.value| <= 160)
    && AreResults(b.results, GATES, b.counts)
    && profile.Some?
    && forall row :: row in NormalRows(b.results) && (row.status == "PASS" || row.status == "FAIL") ==>
         row.name in GatesOf(profile.value)
  }

  /** A report is accepted exactly when it is such a report, for the manifest it is checked against. */
  lemma ReportAcceptedExactlyWhen(report: Report, release: string, manifest: Option<M.Manifest>, h: ReportHash, hs: M.Hashes)
    ensures Passes(report, release, manifest, h, hs) <==>
              && IsReport(report, release, h)
              && (manifest.Some? ==> M.Accepts(manifest.value, hs) && IsForManifest(report, manifest.value))
  {
    HexTextIs(report.body.execution.id);
    HexTextIs(Lower(report.body.execution.manifestSha));
    HexTextIs(Lower(Strip(report.body.sourceTree.sha)));
    ResultsAreExactly(report.body.results, report.body.counts);
    if AreResults(report.body.results, GATES, report.body.counts) && Profile(report).Some? {
      RowsSpeak(report.body.results, Profile(report).value, report.body.counts);
    }
  }

  lemma RowsSpeak(raw: seq<Row<Measure>>, profile: string, counts: Counts)
    requires AreResults(raw, GATES, counts)
    ensures Authorized(profile, NormalRows(raw)) <==>
            forall row :: row in NormalRows(raw) && (row.status == "PASS" || row.status == "FAIL") ==> row.name in GatesOf(profile)
  {
    var rows := NormalRows(raw);
    forall row | row in rows ensures row.status in {"PASS", "FAIL", "SKIP"} {
      var i :| 0 <= i < |rows| && rows[i] == row;
    }
  }

  ghost predicate IsForManifest(report: Report, m: M.Manifest) {
    var b := report.body;
    && b.release == m.body.release && b.execution.id == m.body.executionId
    && Lower(b.execution.manifestSha) == m.evidence && b.sourceTree == m.body.sourceTree
    && exists p :: p in m.body.requiredProfiles && NormalizeProfile(b.runner.profile) == Some(p)
  }

  // ---------- a bundle ----------

  /** The last input that carries this number. */
  ghost predicate IsLastWith(inputs: seq<Input>, index: int, i: nat) {
    i < |inputs| && inputs[i].reportIndex == index && forall j :: i < j < |inputs| ==> inputs[j].reportIndex != index
  }

  lemma LastOfPrefix(inputs: seq<Input>, index: int, i: nat)
    requires inputs != [] && inputs[|inputs| - 1].reportIndex != index
    ensures IsLastWith(inputs, index, i) <==> IsLastWith(inputs[..|inputs| - 1], index, i)
  {
  }

  lemma {:induction false} ProfileOfNumber(inputs: seq<Input>, index: int, i: nat)
    requires IsLastWith(inputs, index, i)
    ensures index in InputProfiles(inputs) && InputProfiles(inputs)[index] == ProfileOf(inputs[i])
  {
    var n := |inputs| - 1;
    var before := InputProfiles(inputs[..n]);
    assert InputProfiles(inputs) == before[inputs[n].reportIndex := ProfileOf(inputs[n])];
    if inputs[n].reportIndex == index {
      assert i == n;
    } else {
      LastOfPrefix(inputs, index, i);
      ProfileOfNumber(inputs[..n], index, i);
    }
  }

  lemma {:induction false} NumberHasLast(inputs: seq<Input>, index: int) returns (i: nat)
    requires index in InputProfiles(inputs)
    ensures IsLastWith(inputs, index, i)
  {
    var n := |inputs| - 1;
    if inputs[n].reportIndex == index {
      i := n;
    } else {
      i := NumberHasLast(inputs[..n], index);
      LastOfPrefix(inputs, index, i);
    }
  }

  /** An observation repeats the profile of the input it numbers, says truly whether that profile may
      judge the gate, and is silent where it may not. */
  ghost predicate IsObservation(o: Observation, gate: string, inputs: seq<Input>) {
    && (exists i: nat :: IsLastWith(inputs, o.reportIndex, i) && o.runnerProfile == ProfileOf(inputs[i]))
    && (o.authorized <==> gate in GatesOf(o.runnerProfile))
    && o.status in {"PASS", "FAIL", "SKIP"} && (o.status != "SKIP" ==> gate in GatesOf(o.runnerProfile))
  }

  lemma ObservationIs(o: Observation, gate: string, inputs: seq<Input>)
    requires ObservationOk(o, gate, InputProfiles(inputs))
    ensures IsObservation(o, gate, inputs)
  {
    var i := NumberHasLast(inputs, o.reportIndex);
    ProfileOfNumber(inputs, o.reportIndex, i);
  }

  /** The coverage block: the profiles required and observed, and what is missing. */
  ghost predicate IsCoverage(e: Coverage) {
    && IsHexText(e.id) && IsHexText(e.manifestSha)
    && Distinct(e.required) && Distinct(e.observed) && J.Ascending(e.observed)
    && (forall p :: p in e.observed ==> p in e.required)
    && (forall p :: p in e.missing <==> p in e.required && p !in e.observed)
    && (e.complete <==> forall p :: p in e.required ==> p in e.observed)
  }

  lemma {:induction false} MissingAre(required: seq<string>, observed: seq<string>)
    ensures forall p :: p in MissingFrom(required, observed) <==> p in required && p !in observed
  {
    if required != [] { MissingAre(required[1..], observed); }
  }

  lemma CoverageIs(b: BundleBody)
    requires CoverageOk(b.execution) && InputsOk(b)
    ensures IsCoverage(b.execution)
  {
    var e := b.execution;
    HexTextIs(e.id);
    HexTextIs(e.manifestSha);
    NoRepeatsExactlyWhen(e.required);
    NoRepeatsExactlyWhen(e.observed);
    MissingAre(e.required, e.observed);
    NothingMissing(e.required, e.observed);
  }

  /** Every input is of a required profile and of the one execution, and what is observed is exactly the
      profiles of the inputs, the last of each number. */
  ghost predicate AreInputs(b: BundleBody) {
    && (forall item :: item in b.inputs ==>
          && NormalizeProfile(item.runner.profile).Some? && ProfileOf(item) in b.execution.required
          && item.execution.id == b.execution.id && item.execution.manifestSha == b.execution.manifestSha)
    && b.inputs != []
    && (forall p :: p in b.execution.observed <==>
          exists i: nat :: i < |b.inputs| && IsLastWith(b.inputs, b.inputs[i].reportIndex, i) && ProfileOf(b.inputs[i]) == p)
  }

  lemma ObservedAre(b: BundleBody, p: string)
    requires InputsOk(b)
    ensures p in b.execution.observed <==>
            exists i: nat :: i < |b.inputs| && IsLastWith(b.inputs, b.inputs[i].reportIndex, i) && ProfileOf(b.inputs[i]) == p
  {
    var profiles := InputProfiles(b.inputs);
    assert p in b.execution.observed <==> p in ProfileSet(profiles);
    if p in ProfileSet(profiles) {
      var k :| k in profiles && profiles[k] == p;
      var i := NumberHasLast(b.inputs, k);
      ProfileOfNumber(b.inputs, k, i);
    }
    if i: nat :| i < |b.inputs| && IsLastWith(b.inputs, b.inputs[i].reportIndex, i) && ProfileOf(b.inputs[i]) == p {
      ProfileOfNumber(b.inputs, b.inputs[i].reportIndex, i);
    }
  }

  lemma InputsAre(b: BundleBody)
    requires InputsOk(b)
    ensures AreInputs(b)
  {
    OneExecution(b);
    forall p ensures p in b.execution.observed <==>
      exists i: nat :: i < |b.inputs| && IsLastWith(b.inputs, b.inputs[i].reportIndex, i) && ProfileOf(b.inputs[i]) == p
    {
      ObservedAre(b, p);
    }
    var executions := set item | item in b.inputs :: item.execution;
    assert Execution(b.execution.id, b.execution.manifestSha) in executions;
  }

  ghost predicate AgreesWith(b: BundleBody, m: M.Manifest) {
    && m.body.release == b.release && m.body.sourceTree == b.sourceTree
    && m.body.executionId == b.execution.id && m.evidence == b.execution.manifestSha
    && m.body.requiredProfiles == b.execution.required && m.body.requiredGates == b.requiredGates
  }

  /** An accepted bundle carries its own hash and counts, a row for each required gate, coverage and
      observations that follow from its inputs, and a verdict that follows from these. */
  lemma AcceptedBundleMeans(b: Bundle, release: string, complete: bool, manifest: Option<M.Manifest>, env: Env)
    requires Verifies(b, release, complete, manifest, env)
    ensures b.evidence == env.bundle(b.body) != "" && b.body.release == release && b.body.schemaVersion == 3
    ensures IsHexText(b.body.sourceTree.sha) && IsCoverage(b.body.execution) && AreInputs(b.body)
    ensures b.body.requiredGates != [] && Distinct(b.body.requiredGates) && forall g :: g in b.body.requiredGates ==> g in GATES
    ensures AreResults(b.body.results, b.body.requiredGates, b.body.counts)
    ensures forall row, o :: row in NormalRows(b.body.results) && o in row.rest.observations ==>
              IsObservation(o, row.name, b.body.inputs)
    ensures b.body.certified <==>
              (forall row :: row in NormalRows(b.body.results) ==> row.status == "PASS") && b.body.execution.complete
    ensures complete ==> b.body.certified
    ensures manifest.Some? ==> M.Accepts(manifest.value, env.manifest) && AgreesWith(b.body, manifest.value)
  {
    HexTextIs(b.body.sourceTree.sha);
    CoverageIs(b.body);
    InputsAre(b.body);
    NoRepeatsExactlyWhen(b.body.requiredGates);
    ResultsAre(b.body.results, b.body.requiredGates, b.body.counts);
    FullPassExactlyWhen(NormalRows(b.body.results));
    forall row, o | row in NormalRows(b.body.results) && o in row.rest.observations
      ensures IsObservation(o, row.name, b.body.inputs)
    {
      ObservationIs(o, row.name, b.body.inputs);
    }
  }

  // ---------- a path ----------

  lemma {:induction false} StripLeftKeeps(x: string, t: string) returns (a: string)
    requires t != "" && !IsSpace(t[0])
    ensures StripLeft(x + t) == a + t
  {
    if x == "" {
      a := "";
      assert x + t == t && a + t == t;
    } else if IsSpace(x[0]) {
      assert (x + t)[1..] == x[1..] + t;
      a := StripLeftKeeps(x[1..], t);
    } else {
      a := x;
    }
  }

  lemma {:induction false} StripRightKeeps(t: string, y: string) returns (b: string)
    requires t != "" && !IsSpace(t[|t| - 1])
    ensures StripRight(t + y) == t + b
  {
    if y == "" {
      b := "";
      assert t + y == t && t + b == t;
    } else if IsSpace(y[|y| - 1]) {
      assert (t + y)[..|t + y| - 1] == t + y[..|y| - 1];
      b := StripRightKeeps(t, y[..|y| - 1]);
    } else {
      b := y;
    }
  }

  lemma {:induction false} SlashesSplit(a: string, b: string)
    ensures M.Slashes(a + b) == M.Slashes(a) + M.Slashes(b)
  {
    if a == "" {
      assert a + b == b;
    } else {
      assert (a + b)[1..] == a[1..] + b;
      SlashesSplit(a[1..], b);
    }
  }

  lemma {:induction false} PartsOfEarlier(a: string, current: string, rest: string)
    ensures forall p :: p in M.Parts(rest, "") ==> p in M.Parts(a + "/" + rest, current)
  {
    var s := a + "/" + rest;
    if a == "" {
      assert s[0] == '/' && s[1..] == rest;
    } else {
      assert s[0] == a[0] && s[1..] == a[1..] + "/" + rest;
      if a[0] == '/' { PartsOfEarlier(a[1..], "", rest); } else { PartsOfEarlier(a[1..], current + [a[0]], rest); }
    }
  }

  lemma ParentIsFirst(rest: string)
    ensures ".." in M.Parts("../" + rest, "")
  {
    var s, t, u := "../" + rest, "./" + rest, "/" + rest;
    assert s[1..] == t && t[1..] == u && u[1..] == rest;
    assert "" + [s[0]] == "." && "." + [t[0]] == "..";
    assert M.Parts(s, "") == M.Parts(t, ".") == M.Parts(u, "..");
    assert M.Parts(u, "..") == [".."] + M.Parts(rest, "");
  }

  lemma SlashesOfParent()
    ensures M.Slashes("/../") == "/../"
  {
    M.SlashesOfPlain("/../");
  }

  /** A path that goes up anywhere is refused. */
  lemma ParentIsRefused(x: string, y: string)
    ensures M.SafeRelativePath(x + "/../" + y).None?
  {
    var up := "/../";
    assert x + "/../" + y == x + (up + y);
    var a := StripLeftKeeps(x, up + y);
    assert a + (up + y) == (a + up) + y;
    var b := StripRightKeeps(a + up, y);
    var text := M.Slashes(Strip(x + "/../" + y));
    SlashesSplit(a + up, b);
    SlashesSplit(a, up);
    SlashesOfParent();
    var rest := "../" + M.Slashes(b);
    assert text == M.Slashes(a) + "/" + rest;
    ParentIsFirst(M.Slashes(b));
    PartsOfEarlier(M.Slashes(a), "", rest);
  }

  /** So is an absolute one, with either slash. */
  lemma AbsoluteIsRefused(y: string)
    ensures M.SafeRelativePath("/" + y).None? && M.SafeRelativePath("\\" + y).None?
  {
    var a := StripRightKeeps("/", y);
    var b := StripRightKeeps("\\", y);
    assert StripLeft("/" + y) == "/" + y && StripLeft("\\" + y) == "\\" + y;
  }

  // ---------- a manifest ----------

  ghost predicate AsksFor(gates: seq<string>, x: string) { exists g :: g in gates && x in Prerequisites(g) }

  /** In order, and exactly what the gates ask for. */
  ghost predicate AreAsked(names: seq<string>, gates: seq<string>) {
    J.Ascending(names) && forall x :: x in names <==> AsksFor(gates, x)
  }

  lemma AskedSorted(gates: seq<string>)
    ensures AreAsked(M.SortedNames(M.AllPrerequisites(gates)), gates)
  {
    PrerequisitesOf(gates);
    SortedAre(M.AllPrerequisites(gates));
  }

  /** The plan of a production profile: its path, its gates, what these ask for, sorted, and which of
      them destroys data. */
  ghost predicate IsPlanned(r: M.ReportPlan) {
    && r.profile in PRODUCTION && r.path == "certification-reports" + "/" + r.profile + ".json" && r.gates == GatesOf(r.profile)
    && AreAsked(r.prerequisites, r.gates)
    && (forall g :: g in r.destructiveGates <==> g in r.gates && g == "postgres-dr")
    && r.command == "RIVEXIS_CERT_RUNNER_PROFILE=" + r.profile + " RIVEXIS_STAGING_CERT_REPORT=" + r.path
                    + " RIVEXIS_CERT_EXECUTION_MANIFEST=" + "certification-execution-manifest.json"
                    + " python scripts/certify_staging_suite.py"
  }

  lemma {:induction false} PrerequisitesOf(gates: seq<string>)
    ensures forall x :: x in M.AllPrerequisites(gates) <==> AsksFor(gates, x)
  {
    if gates != [] {
      PrerequisitesOf(gates[1..]);
      forall x ensures AsksFor(gates, x) <==> x in Prerequisites(gates[0]) || AsksFor(gates[1..], x) {
        if x in Prerequisites(gates[0]) { assert gates[0] in gates; }
        if g :| g in gates[1..] && x in Prerequisites(g) { assert g in gates; }
      }
    }
  }

  lemma {:induction false} DestructiveOf(gates: seq<string>)
    ensures forall g :: g in M.Destructive(gates) <==> g in gates && g == "postgres-dr"
  {
    if gates != [] { DestructiveOf(gates[1..]); }
  }

  /** The names sorted: in order, and the same ones. */
  lemma SortedAre(names: seq<string>)
    ensures J.Ascending(M.SortedNames(names)) && forall x :: x in M.SortedNames(names) <==> x in names
  {
    SortedNamesSorts(names);
    forall x ensures x in M.SortedNames(names) <==> x in names {
      assert x in M.SortedNames(names) <==> x in Elements(M.SortedNames(names));
    }
  }

  lemma PlanGates(profile: string, gates: seq<string>)
    requires gates == GatesOf(profile)
    ensures AreAsked(M.Plan(profile).prerequisites, gates)
    ensures forall g :: g in M.Plan(profile).destructiveGates <==> g in gates && g == "postgres-dr"
  {
    DestructiveOf(gates);
    AskedSorted(gates);
  }

  lemma PlanIs(profile: string)
    requires profile in PRODUCTION
    ensures IsPlanned(M.Plan(profile)) && M.Plan(profile).profile == profile
  {
    PlanGates(profile, GatesOf(profile));
  }

  /** The aggregate command names the report of each plan, in their order. */
  ghost predicate IsAggregate(a: M.AggregatePlan, reports: seq<M.ReportPlan>) {
    && a.output == "release-certification-bundle.json"
    && a.command == "python scripts/certify_release_bundle.py --manifest " + "certification-execution-manifest.json" + " "
                    + Join(seq(|reports|, i requires 0 <= i < |reports| => "--report " + reports[i].path), " ")
    && a.verifyCommand == "python scripts/verify_release_bundle.py " + "release-certification-bundle.json" + " --manifest "
                          + "certification-execution-manifest.json" + " --require-complete"
  }

  lemma AggregateIs(reports: seq<M.ReportPlan>)
    ensures IsAggregate(M.AggregateOf(reports), reports)
  {
    assert M.ReportOptions(reports) == seq(|reports|, i requires 0 <= i < |reports| => "--report " + reports[i].path);
  }

  /** An accepted manifest carries its own hash and the execution id of its tree, and plans one report for
      each of the nine production profiles. */
  lemma AcceptedManifestMeans(m: M.Manifest, hs: M.Hashes)
    requires M.Accepts(m, hs)
    ensures m.evidence == hs.body(m.body) != "" && m.body.schemaVersion == 1 && m.body.release == "P37"
    ensures M.SafeRelativePath(m.body.manifestPath) == Some("certification-execution-manifest.json")
    ensures M.SafeRelativePath(m.body.reportDir) == Some("certification-reports")
    ensures IsHexText(m.body.sourceTree.sha) && m.body.sourceTree.fileCount >= 1
    ensures m.body.requiredProfiles == PRODUCTION && m.body.requiredGates == GATES
    ensures m.body.executionId == hs.id(M.IdPayload("P37", m.body.sourceTree, PRODUCTION, GATES,
                                                    "certification-execution-manifest.json", "certification-reports"))
    ensures |m.body.reports| == 9 && (forall r :: r in m.body.reports ==> IsPlanned(r))
    ensures forall p :: p in PRODUCTION ==> exists r :: r in m.body.reports && r.profile == p
    ensures IsAggregate(m.body.aggregate, m.body.reports)
  {
    HexTextIs(m.body.sourceTree.sha);
    AggregateIs(m.body.reports);
    M.PlansAreDistinct();
    RearrangedElements(m.body.reports, M.Plans());
    forall r | r in m.body.reports ensures IsPlanned(r) {
      assert r in M.Plans();
      PlanIs(r.profile);
    }
    forall p | p in PRODUCTION ensures exists r :: r in m.body.reports && r.profile == p {
      PlanIs(p);
      assert M.Plan(p) in M.Plans();
    }
  }
}
