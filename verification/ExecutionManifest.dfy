/** The production execution manifest: how it is built and when it is accepted.

    A manifest is a record of the fields the code reads, with the seal beside the body; the two
    hashes taken over canonical JSON are parameters. */
module ExecutionManifest {
  import opened Common
  import opened Strings
  import opened Permutations
  import opened Profiles
  import J = CanonicalJson

  const MANIFEST_PATH := "certification-execution-manifest.json"
  const REPORT_DIR := "certification-reports"
  const BUNDLE := "release-certification-bundle.json"

  datatype ReportPlan = ReportPlan(profile: string, path: string, gates: seq<string>, prerequisites: seq<string>,
                                   destructiveGates: seq<string>, command: string)
  datatype AggregatePlan = AggregatePlan(output: string, command: string, verifyCommand: string)
  datatype Tree = Tree(sha: string, fileCount: int)

  datatype Body = Body(schemaVersion: int, release: string, generatedAt: string, executionId: string,
                       manifestPath: string, reportDir: string, sourceTree: Tree,
                       requiredProfiles: seq<string>, requiredGates: seq<string>,
                       reports: seq<ReportPlan>, aggregate: AggregatePlan)
  datatype Manifest = Manifest(body: Body, evidence: string)

  datatype IdPayload = IdPayload(release: string, sourceTree: Tree, requiredProfiles: seq<string>,
                                 requiredGates: seq<string>, manifestPath: string, reportDir: string)

  /** SHA-256 of the canonical JSON of a body and of an execution-id payload. */
  datatype Hashes = Hashes(body: Body -> string, id: IdPayload -> string)

  // ---------- paths ----------

  function Slashes(s: string): string {
    if s == "" then "" else [if s[0] == '\\' then '/' else s[0]] + Slashes(s[1..])
  }

  /** The parts of a POSIX path: empty parts and `.` vanish. */
  function Parts(s: string, current: string): seq<string> {
    if s == "" then Part(current)
    else if s[0] == '/' then Part(current) + Parts(s[1..], "")
    else Parts(s[1..], current + [s[0]])
  }

  function Part(p: string): seq<string> { if p == "" || p == "." then [] else [p] }

  /** `_safe_relative_path`; `None` stands for its error. */
  function SafeRelativePath(value: string): Option<string> {
    var text := Slashes(Strip(value));
    var parts := Parts(text, "");
    if text == "" || text[0] == '/' || ".." in parts then None
    else Some(if parts == [] then "." else Join(parts, "/"))
  }

  predicate PlainName(s: string) {
    s != "" && Stripped(s) && s != "." && s != ".." && forall i :: 0 <= i < |s| ==> s[i] != '/' && s[i] != '\\'
  }

  lemma {:induction false} SlashesOfPlain(s: string)
    requires forall i :: 0 <= i < |s| ==> s[i] != '\\'
    ensures Slashes(s) == s
  {
    if s != "" {
      SlashesOfPlain(s[1..]);
    }
  }

  lemma {:induction false} PartsOfPlain(s: string, current: string)
    requires forall i :: 0 <= i < |s| ==> s[i] != '/'
    ensures Parts(s, current) == Part(current + s)
  {
    if s == "" {
      assert current + s == current;
    } else {
      PartsOfPlain(s[1..], current + [s[0]]);
      assert current + [s[0]] + s[1..] == current + s;
    }
  }

  lemma PlainNameIsSafe(s: string)
    requires PlainName(s)
    ensures SafeRelativePath(s) == Some(s)
  {
    StrippedIsFixed(s);
    SlashesOfPlain(s);
    PartsOfPlain(s, "");
    assert "" + s == s;
  }

  // ---------- the plan ----------

  function InsertNew(name: string, names: seq<string>): seq<string> {
    if name in names then names else J.Insert(name, names)
  }

  function SortedNames(names: seq<string>): seq<string> {
    if names == [] then [] else InsertNew(names[0], SortedNames(names[1..]))
  }

  function AllPrerequisites(gates: seq<string>): seq<string> {
    if gates == [] then [] else Prerequisites(gates[0]) + AllPrerequisites(gates[1..])
  }

  function Destructive(gates: seq<string>): seq<string> {
    if gates == [] then []
    else (if IsDestructive(gates[0]) then [gates[0]] else []) + Destructive(gates[1..])
  }

  /** `_report_plan` at the fixed directory and manifest name. */
  function Plan(profile: string): ReportPlan {
    var path := REPORT_DIR + "/" + profile + ".json";
    ReportPlan(profile, path, GatesOf(profile), SortedNames(AllPrerequisites(GatesOf(profile))),
               Destructive(GatesOf(profile)),
               "RIVEXIS_CERT_RUNNER_PROFILE=" + profile + " RIVEXIS_STAGING_CERT_REPORT=" + path
               + " RIVEXIS_CERT_EXECUTION_MANIFEST=" + MANIFEST_PATH + " python scripts/certify_staging_suite.py")
  }

  function Plans(): seq<ReportPlan> {
    seq(|PRODUCTION|, i requires 0 <= i < |PRODUCTION| => Plan(PRODUCTION[i]))
  }

  function ReportOptions(reports: seq<ReportPlan>): seq<string> {
    seq(|reports|, i requires 0 <= i < |reports| => "--report " + reports[i].path)
  }

  /** `_aggregate_plan` */
  function AggregateOf(reports: seq<ReportPlan>): AggregatePlan {
    AggregatePlan(BUNDLE,
      "python scripts/certify_release_bundle.py --manifest " + MANIFEST_PATH + " " + Join(ReportOptions(reports), " "),
      "python scripts/verify_release_bundle.py " + BUNDLE + " --manifest " + MANIFEST_PATH + " --require-complete")
  }

  predicate IsSha256Text(value: string) {
    |value| == 64 && forall i :: 0 <= i < |value| ==> '0' <= value[i] <= '9' || 'a' <= LowerChar(value[i]) <= 'f'
  }

  function ExecutionId(tree: Tree, hs: Hashes): string {
    hs.id(IdPayload(RELEASE, tree, PRODUCTION, GATES, MANIFEST_PATH, REPORT_DIR))
  }

  // ---------- acceptance ----------

  /** Everything the verifier asks of a manifest except about its list of reports. */
  predicate FrameOk(m: Manifest, hs: Hashes) {
    && m.evidence != "" && m.evidence == hs.body(m.body)
    && m.body.schemaVersion == 1 && m.body.release == RELEASE
    && SafeRelativePath(m.body.manifestPath) == Some(MANIFEST_PATH)
    && SafeRelativePath(m.body.reportDir) == Some(REPORT_DIR)
    && IsSha256Text(m.body.sourceTree.sha) && m.body.sourceTree.fileCount > 0
    && m.body.requiredProfiles == PRODUCTION && m.body.requiredGates == GATES
    && m.body.executionId == ExecutionId(m.body.sourceTree, hs)
  }

  /** What acceptance means: a sealed frame around a rearrangement of the nine canonical plans
      with the aggregate commands that go with that order. */
  predicate Accepts(m: Manifest, hs: Hashes) {
    && FrameOk(m, hs)
    && multiset(m.body.reports) == multiset(Plans())
    && m.body.aggregate == AggregateOf(m.body.reports)
  }

  /** The dict that is returned carries the normalized paths under the old seal. */
  function Returned(m: Manifest): Manifest {
    m.(body := m.body.(manifestPath := MANIFEST_PATH, reportDir := REPORT_DIR))
  }

  predicate TreeMatches(m: Manifest, actual: Option<Tree>) { actual.Some? ==> m.body.sourceTree == actual.value }

  lemma PlansAreDistinct()
    ensures |Plans()| == |PRODUCTION| && Distinct(Plans())
    ensures forall r: ReportPlan :: r in Plans() <==> r.profile in PRODUCTION && r == Plan(r.profile)
  {
    ConstantsAreDistinct();
    forall i | 0 <= i < |PRODUCTION| ensures Plans()[i].profile == PRODUCTION[i] {}
    forall r: ReportPlan | r.profile in PRODUCTION && r == Plan(r.profile) ensures r in Plans() {
      var i :| 0 <= i < |PRODUCTION| && PRODUCTION[i] == r.profile;
      assert Plans()[i] == r;
    }
  }

  /** The part of the list the loop has passed: canonical plans of different profiles. */
  ghost predicate CheckedReports(reports: seq<ReportPlan>) {
    && (forall r :: r in reports ==> r in Plans())
    && Distinct(reports)
  }

  lemma CanonicalPaths(a: ReportPlan, b: ReportPlan)
    requires a in Plans() && b in Plans() && a.path == b.path
    ensures a == b
  {
    PlansAreDistinct();
    var prefix := REPORT_DIR + "/";
    assert a.path[|prefix|..|a.path| - 5] == a.profile;
    assert b.path[|prefix|..|b.path| - 5] == b.profile;
  }

  /** One more report: exactly the canonical plan of a profile not seen before passes. */
  lemma NextReport(checked: seq<ReportPlan>, raw: ReportPlan)
    requires CheckedReports(checked)
    ensures CheckedReports(checked + [raw])
       <==> raw in Plans() && forall r :: r in checked ==> r.profile != raw.profile
  {
    PlansAreDistinct();
    if CheckedReports(checked + [raw]) {
      assert (checked + [raw])[|checked|] == raw;
      forall r | r in checked ensures r != raw {
        var i :| 0 <= i < |checked| && checked[i] == r;
        assert (checked + [raw])[i] == r;
      }
    }
    if raw in Plans() && forall r :: r in checked ==> r.profile != raw.profile {
      assert forall r :: r in checked + [raw] ==> r in checked || r == raw;
      assert Distinct(checked + [raw]);
    }
  }

  lemma CheckedIsRearranged(reports: seq<ReportPlan>)
    requires |reports| == |PRODUCTION|
    ensures CheckedReports(reports) <==> multiset(reports) == multiset(Plans())
  {
    PlansAreDistinct();
    if CheckedReports(reports) {
      Pigeonhole(reports, Plans());
    }
    if multiset(reports) == multiset(Plans()) {
      RearrangedElements(reports, Plans());
      RearrangedDistinct(reports, Plans());
    }
  }

  /** A raw report passes the loop's contract check exactly when it is a canonical plan. */
  lemma CanonicalExactlyWhen(raw: ReportPlan)
    ensures raw in Plans() <==>
            var profile := NormalizeProfile(raw.profile);
            profile.Some? && profile.value in PRODUCTION && raw == Plan(profile.value)
  {
    PlansAreDistinct();
    if raw in Plans() {
      var i :| 0 <= i < |PRODUCTION| && PRODUCTION[i] == raw.profile;
      ProductionIsNormalized(i);
    }
  }

  ghost function GatesSeen(reports: seq<ReportPlan>): set<string> {
    set r, g | r in reports && g in r.gates :: g
  }

  lemma AllGatesSeen(reports: seq<ReportPlan>)
    requires multiset(reports) == multiset(Plans())
    ensures Elements(GATES) == GatesSeen(reports)
    ensures (set r | r in reports :: r.profile) == Elements(PRODUCTION)
  {
    PlansAreDistinct();
    RearrangedElements(reports, Plans());
    forall g ensures g in GATES <==> g in GatesSeen(reports) {
      ProductionCoversGates(g);
      if g in GATES {
        var p :| p in PRODUCTION && g in GatesOf(p);
        assert Plan(p) in reports;
      }
    }
    forall p | p in PRODUCTION ensures p in set r | r in reports :: r.profile { assert Plan(p) in reports; }
  }

  /** What the loop has accumulated after the reports in `passed`. */
  ghost predicate LoopState(passed: seq<ReportPlan>, profiles: set<string>, paths: set<string>, gates: set<string>) {
    && CheckedReports(passed)
    && (forall p :: p in profiles <==> exists q :: q in passed && q.profile == p)
    && (forall p :: p in paths <==> exists q :: q in passed && q.path == p)
    && gates == GatesSeen(passed)
  }

  lemma PassedReport(passed: seq<ReportPlan>, profiles: set<string>, paths: set<string>, gates: set<string>, raw: ReportPlan)
    requires LoopState(passed, profiles, paths, gates) && raw in Plans()
    ensures raw.profile !in profiles ==>
              && CheckedReports(passed + [raw]) && raw.path !in paths
              && LoopState(passed + [raw], profiles + {raw.profile}, paths + {raw.path}, gates + Elements(raw.gates))
    ensures raw.profile in profiles ==> !CheckedReports(passed + [raw])
  {
    NextReport(passed, raw);
    var next := passed + [raw];
    assert forall q :: q in next <==> q in passed || q == raw;
    if raw.profile !in profiles {
      forall q | q in passed ensures q.path != raw.path {
        if q.path == raw.path { CanonicalPaths(q, raw); }
      }
      assert GatesSeen(next) == gates + Elements(raw.gates);
    }
  }

  /** The checks on one report before its path is looked at. */
  predicate Refused(raw: ReportPlan, profiles: set<string>) {
    var profile := NormalizeProfile(raw.profile);
    profile.None? || profile.value !in PRODUCTION || profile.value in profiles || raw != Plan(profile.value)
  }

  lemma RefusedExactlyWhen(raw: ReportPlan, profiles: set<string>)
    ensures Refused(raw, profiles) <==> raw !in Plans() || raw.profile in profiles
  {
    CanonicalExactlyWhen(raw);
  }

  lemma LoopStep(reports: seq<ReportPlan>, i: nat, profiles: set<string>, paths: set<string>, gates: set<string>)
    requires i < |reports| && LoopState(reports[..i], profiles, paths, gates)
    ensures Refused(reports[i], profiles) ==> !CheckedReports(reports)
    ensures !Refused(reports[i], profiles) ==>
              && reports[i].path !in paths
              && LoopState(reports[..i + 1], profiles + {reports[i].profile}, paths + {reports[i].path},
                           gates + Elements(reports[i].gates))
  {
    var raw := reports[i];
    assert reports[..i + 1] == reports[..i] + [raw];
    RefusedExactlyWhen(raw, profiles);
    if raw in Plans() {
      PassedReport(reports[..i], profiles, paths, gates, raw);
    }
  }

  lemma LoopEnds(reports: seq<ReportPlan>, profiles: set<string>, paths: set<string>, gates: set<string>)
    requires |reports| == |PRODUCTION| && LoopState(reports, profiles, paths, gates)
    ensures multiset(reports) == multiset(Plans())
    ensures profiles == Elements(PRODUCTION) && gates == Elements(GATES)
  {
    CheckedIsRearranged(reports);
    AllGatesSeen(reports);
    assert profiles == set r | r in reports :: r.profile;
  }

  /** The list of reports, checked one by one.  The checks for a repeated path, a missing profile
      and an uncovered gate are made as in the source and proved unreachable. */
  method VerifyReports(reports: seq<ReportPlan>) returns (ok: bool)
    ensures ok <==> multiset(reports) == multiset(Plans())
  {
    if |reports| != |PRODUCTION| {
      RearrangedLength(reports);
      return false;
    }
    ok := CheckEachReport(reports);
    CheckedIsRearranged(reports);
  }

  method CheckEachReport(reports: seq<ReportPlan>) returns (ok: bool)
    requires |reports| == |PRODUCTION|
    ensures ok <==> CheckedReports(reports)
  {
    var seenProfiles: set<string>, seenPaths: set<string>, coveredGates: set<string> := {}, {}, {};
    for i := 0 to |reports|
      invariant LoopState(reports[..i], seenProfiles, seenPaths, coveredGates)
    {
      LoopStep(reports, i, seenProfiles, seenPaths, coveredGates);
      if Refused(reports[i], seenProfiles) {
        return false;
      }
      if reports[i].path in seenPaths {
        assert false;
      }
      seenProfiles := seenProfiles + {reports[i].profile};
      seenPaths := seenPaths + {reports[i].path};
      coveredGates := coveredGates + Elements(reports[i].gates);
    }
    assert reports[..|reports|] == reports;
    LoopEnds(reports, seenProfiles, seenPaths, coveredGates);
    if seenProfiles != Elements(PRODUCTION) {
      assert false;
    }
    if coveredGates != Elements(GATES) {
      assert false;
    }
    return true;
  }

  /** `verify_execution_manifest` */
  method VerifyExecutionManifest(m: Manifest, hs: Hashes, actual: Option<Tree>) returns (r: Option<Manifest>)
    ensures r == if Accepts(m, hs) && TreeMatches(m, actual) then Some(Returned(m)) else None
  {
    if !FrameOk(m, hs) {
      return None;
    }
    var reportsOk := VerifyReports(m.body.reports);
    if !reportsOk || m.body.aggregate != AggregateOf(m.body.reports) {
      return None;
    }
    if actual.Some? && m.body.sourceTree != actual.value {
      return None;
    }
    return Some(m.(body := m.body.(manifestPath := MANIFEST_PATH, reportDir := REPORT_DIR)));
  }

  lemma RearrangedLength(reports: seq<ReportPlan>)
    requires |reports| != |PRODUCTION|
    ensures multiset(reports) != multiset(Plans())
  {
    PlansAreDistinct();
    if multiset(reports) == multiset(Plans()) {
      RearrangedElements(reports, Plans());
    }
  }

  // ---------- what the builder makes ----------

  /** `build_execution_manifest` for a source tree, at the fixed paths. */
  function Build(tree: Tree, now: string, hs: Hashes): Manifest {
    Sealed(PlannedBody(tree, now, REPORT_DIR, hs), hs)
  }

  function Sealed(body: Body, hs: Hashes): Manifest { Manifest(body, hs.body(body)) }

  /** The body of a production plan with the report directory spelled as given. */
  function PlannedBody(tree: Tree, now: string, dir: string, hs: Hashes): Body {
    Body(1, RELEASE, now, ExecutionId(tree, hs), MANIFEST_PATH, dir, tree, PRODUCTION, GATES, Plans(), AggregateOf(Plans()))
  }

  lemma PlannedFrame(tree: Tree, now: string, dir: string, hs: Hashes)
    requires IsSha256Text(tree.sha) && SafeRelativePath(dir) == Some(REPORT_DIR)
    requires hs.body(PlannedBody(tree, now, dir, hs)) != ""
    ensures FrameOk(Sealed(PlannedBody(tree, now, dir, hs), hs), hs) <==> tree.fileCount > 0
  {
    FixedPathsAreSafe();
  }

  lemma PlannedIsAcceptedExactlyWhen(tree: Tree, now: string, dir: string, hs: Hashes)
    requires IsSha256Text(tree.sha) && SafeRelativePath(dir) == Some(REPORT_DIR)
    requires hs.body(PlannedBody(tree, now, dir, hs)) != ""
    ensures Accepts(Sealed(PlannedBody(tree, now, dir, hs), hs), hs) <==> tree.fileCount > 0
  {
    PlannedFrame(tree, now, dir, hs);
    var body := PlannedBody(tree, now, dir, hs);
    assert body.reports == Plans() && body.aggregate == AggregateOf(body.reports);
  }

  lemma ManifestPathIsPlain()
    ensures PlainName(MANIFEST_PATH)
  {
  }

  lemma ReportDirIsPlain()
    ensures PlainName(REPORT_DIR)
  {
  }

  lemma FixedPathsAreSafe()
    ensures SafeRelativePath(MANIFEST_PATH) == Some(MANIFEST_PATH) && SafeRelativePath(REPORT_DIR) == Some(REPORT_DIR)
  {
    ManifestPathIsPlain();
    PlainNameIsSafe(MANIFEST_PATH);
    ReportDirIsPlain();
    PlainNameIsSafe(REPORT_DIR);
  }

  /** A built manifest is accepted and returned unchanged, exactly when a file was counted. */
  lemma BuiltIsAcceptedExactlyWhen(tree: Tree, now: string, hs: Hashes)
    requires IsSha256Text(tree.sha) && forall b :: hs.body(b) != ""
    ensures Accepts(Build(tree, now, hs), hs) <==> tree.fileCount > 0
    ensures Returned(Build(tree, now, hs)) == Build(tree, now, hs)
  {
    FixedPathsAreSafe();
    PlannedIsAcceptedExactlyWhen(tree, now, REPORT_DIR, hs);
  }

  /** Any rearrangement of the reports, with aggregate and seal rebuilt, is accepted too. */
  lemma RearrangedIsAccepted(m: Manifest, reports: seq<ReportPlan>, hs: Hashes)
    requires Accepts(m, hs) && multiset(reports) == multiset(m.body.reports) && forall b :: hs.body(b) != ""
    ensures var body := m.body.(reports := reports, aggregate := AggregateOf(reports));
            Accepts(Sealed(body, hs), hs)
  {
  }

  /** The spelled body and the returned body differ and have one hash. */
  predicate RespelledClash(m: Manifest, hs: Hashes) {
    m.body != Returned(m).body && hs.body(m.body) == hs.body(Returned(m).body)
  }

  /** The returned manifest is accepted again exactly when the paths were spelled canonically;
      otherwise the seal covers other text than the returned body. */
  lemma ReverifiesExactlyWhenCanonical(m: Manifest, hs: Hashes)
    requires Accepts(m, hs)
    requires !RespelledClash(m, hs)
    ensures Accepts(Returned(m), hs) <==> m.body.manifestPath == MANIFEST_PATH && m.body.reportDir == REPORT_DIR
    ensures Accepts(Returned(m), hs) <==> Returned(m) == m
  {
    FixedPathsAreSafe();
  }

  lemma BlankInFront(s: string)
    requires Stripped(s) && s != ""
    ensures SafeRelativePath([' '] + s) == SafeRelativePath(s)
  {
    assert ([' '] + s)[1..] == s;
    assert StripLeft([' '] + s) == StripLeft(s);
  }

  /** A manifest whose directory is spelled with a blank is accepted once but not again. */
  lemma BlankIsAcceptedOnce(tree: Tree, now: string, hs: Hashes)
    requires IsSha256Text(tree.sha) && tree.fileCount > 0 && forall b :: hs.body(b) != ""
    requires !RespelledClash(Sealed(PlannedBody(tree, now, [' '] + REPORT_DIR, hs), hs), hs)
    ensures var m := Sealed(PlannedBody(tree, now, [' '] + REPORT_DIR, hs), hs);
            Accepts(m, hs) && !Accepts(Returned(m), hs)
  {
    FixedPathsAreSafe();
    ReportDirIsPlain();
    BlankInFront(REPORT_DIR);
    PlannedIsAcceptedExactlyWhen(tree, now, [' '] + REPORT_DIR, hs);
    var m := Sealed(PlannedBody(tree, now, [' '] + REPORT_DIR, hs), hs);
    assert |m.body.reportDir| == 1 + |REPORT_DIR|;
    ReverifiesExactlyWhenCanonical(m, hs);
  }
}
