/** Release signing requests: how one is built, when it is accepted, and when it may be signed. */
module SigningRequests {
  import opened Common
  import opened Profiles
  import opened ReleaseTrust
  import L = ReleaseLineage
  import M = ExecutionManifest
  import C = ReleaseCertification
  import B = ReleaseBundles

  datatype Artifact = Artifact(name: string, sha: string, size: int)
  datatype CeremonyBlock = CeremonyBlock(id: string, expiresAt: string, limits: Ceremony)
  datatype Certification = Certification(bundleSha: string, executionId: string, manifestSha: string, certified: bool,
                                         manifestAt: string, oldestAt: string, newestAt: string, bundleAt: string)
  datatype TrustRef = TrustRef(policyId: string, organization: string, policySha: string)
  datatype RequestBody = RequestBody(schemaVersion: int, release: string, createdAt: string, ceremony: CeremonyBlock,
                                     artifact: Artifact, sourceTree: M.Tree, certification: Certification,
                                     trust: TrustRef, authorization: Quorum)
  datatype Request = Request(body: RequestBody, sha: string)

  /** What a call finds outside its arguments: the repository tree, the policy file and the artifact
      file (absent when unreadable, empty or inside the repository), clocks and hashes. */
  datatype World = World(clock: Clock, cert: C.Env, tree: M.Tree, policy: Option<Policy>, artifact: Option<Artifact>,
                         requestHash: RequestBody -> string, policyHash: Policy -> string)

  // ---------- instants ----------

  function At(text: string, clock: Clock): int {
    var t := clock.parse(text);
    if t.Some? then t.value else 0
  }

  predicate Dated(text: string, clock: Clock) { clock.parse(text).Some? }

  function Seconds(n: int): int { n * MICROS }

  function Least(times: seq<int>): (r: int)
    requires times != []
    ensures r in times && forall t :: t in times ==> r <= t
  {
    if |times| == 1 then times[0]
    else
      var rest := Least(times[1..]);
      assert forall t :: t in times <==> t == times[0] || t in times[1..];
      if times[0] <= rest then times[0] else rest
  }

  function Greatest(times: seq<int>): (r: int)
    requires times != []
    ensures r in times && forall t :: t in times ==> t <= r
  {
    if |times| == 1 then times[0]
    else
      var rest := Greatest(times[1..]);
      assert forall t :: t in times <==> t == times[0] || t in times[1..];
      if times[0] >= rest then times[0] else rest
  }

  function ReportTimes(inputs: seq<C.Input>, clock: Clock): (r: seq<int>)
    ensures |r| == |inputs|
  {
    seq(|inputs|, i requires 0 <= i < |inputs| => At(inputs[i].generatedAt, clock))
  }

  // ---------- the certification times ----------

  predicate SummaryOk(bundle: C.Bundle, manifest: M.Manifest, clock: Clock) {
    && bundle.body.inputs != [] && (forall item :: item in bundle.body.inputs ==> Dated(item.generatedAt, clock))
    && Dated(bundle.body.generatedAt, clock) && Dated(manifest.body.generatedAt, clock)
  }

  /** The certification block, with `_certification_time_summary`. */
  function CertificationOf(bundle: C.Bundle, manifest: M.Manifest, clock: Clock): Certification
    requires SummaryOk(bundle, manifest, clock)
  {
    var times := ReportTimes(bundle.body.inputs, clock);
    Certification(bundle.evidence, manifest.body.executionId, manifest.evidence, true,
                  clock.write(At(manifest.body.generatedAt, clock)), clock.write(Least(times)),
                  clock.write(Greatest(times)), clock.write(At(bundle.body.generatedAt, clock)))
  }

  predicate CertificationDated(c: Certification, clock: Clock) {
    Dated(c.manifestAt, clock) && Dated(c.oldestAt, clock) && Dated(c.newestAt, clock) && Dated(c.bundleAt, clock)
  }

  /** `_validate_certification_freshness` */
  predicate Fresh(c: Certification, limits: Ceremony, t: int, clock: Clock) {
    var manifest, oldest, newest, bundle :=
      At(c.manifestAt, clock), At(c.oldestAt, clock), At(c.newestAt, clock), At(c.bundleAt, clock);
    var age, skew := Seconds(limits.maxAge), Seconds(limits.skew);
    && CertificationDated(c, clock)
    && oldest <= newest && manifest <= oldest + skew && newest <= bundle + skew
    && manifest <= t + skew && newest <= t + skew && bundle <= t + skew
    && t - oldest <= age + skew
  }

  // ---------- the request ----------

  /** `_validate_ceremony_block`; `open` is the present instant when the request must be open. */
  predicate CeremonyBlockOk(q: RequestBody, policy: Policy, open: Option<int>, clock: Clock) {
    var created, expires := At(q.createdAt, clock), At(q.ceremony.expiresAt, clock);
    var limits := q.ceremony.limits;
    && L.IsSha256(q.ceremony.id) && limits == policy.ceremony
    && Dated(q.createdAt, clock) && Dated(q.ceremony.expiresAt, clock)
    && expires == created + Seconds(limits.ttl)
    && (open.Some? ==> created - Seconds(limits.skew) <= open.value <= expires + Seconds(limits.skew))
  }

  function TrustOf(policy: Policy, w: World): TrustRef {
    TrustRef(policy.policyId, policy.organization, w.policyHash(policy))
  }

  /** The evidence the request is about: current tree, accepted manifest, complete bundle. */
  ghost predicate EvidenceOk(bundle: C.Bundle, manifest: M.Manifest, w: World) {
    && M.Accepts(manifest, w.cert.manifest) && manifest.body.sourceTree == w.tree
    && B.Verifies(bundle, RELEASE, true, Some(M.Returned(manifest)), w.cert)
  }

  /** The parts of a request that do not need the evidence. */
  predicate FrameOk(q: Request, w: World, open: Option<int>) {
    && q.body.schemaVersion == 2 && q.body.release == RELEASE && q.sha == w.requestHash(q.body)
    && w.policy.Some? && PolicyOk(w.policy.value, w.clock)
    && CeremonyBlockOk(q.body, w.policy.value, open, w.clock)
    && w.artifact == Some(q.body.artifact)
    && q.body.trust == TrustOf(w.policy.value, w) && q.body.authorization == w.policy.value.quorum
  }

  /** The parts that repeat the evidence. */
  predicate BindsEvidence(q: RequestBody, bundle: C.Bundle, manifest: M.Manifest, w: World) {
    && q.sourceTree == bundle.body.sourceTree
    && SummaryOk(bundle, manifest, w.clock) && q.certification == CertificationOf(bundle, manifest, w.clock)
    && Fresh(q.certification, q.ceremony.limits, At(q.createdAt, w.clock), w.clock)
  }

  /** `_verify_signing_request_or_raise` returns. */
  ghost predicate RequestOk(q: Request, bundle: C.Bundle, manifest: M.Manifest, w: World, open: Option<int>) {
    && FrameOk(q, w, open)
    && EvidenceOk(bundle, manifest, w)
    && BindsEvidence(q.body, bundle, M.Returned(manifest), w)
  }

  method CheckEvidence(bundle: C.Bundle, manifest: M.Manifest, w: World) returns (verified: Option<M.Manifest>)
    ensures verified == if EvidenceOk(bundle, manifest, w) then Some(M.Returned(manifest)) else None
  {
    verified := M.VerifyExecutionManifest(manifest, w.cert.manifest, Some(w.tree));
    if verified.None? {
      return None;
    }
    var complete := B.VerifyReleaseBundle(bundle, RELEASE, true, Some(verified.value), w.cert);
    if !complete {
      return None;
    }
  }

  method VerifySigningRequest(q: Request, bundle: C.Bundle, manifest: M.Manifest, w: World, open: Option<int>)
    returns (ok: bool)
    ensures ok <==> RequestOk(q, bundle, manifest, w, open)
  {
    if !FrameOk(q, w, open) {
      return false;
    }
    var verified := CheckEvidence(bundle, manifest, w);
    return verified.Some? && BindsEvidence(q.body, bundle, verified.value, w);
  }

  // ---------- building ----------

  function BuiltBody(bundle: C.Bundle, manifest: M.Manifest, policy: Policy, artifact: Artifact, w: World,
                     now: int, id: string): RequestBody
    requires SummaryOk(bundle, manifest, w.clock)
  {
    RequestBody(2, RELEASE, w.clock.write(now),
                CeremonyBlock(id, w.clock.write(now + Seconds(policy.ceremony.ttl)), policy.ceremony),
                artifact, bundle.body.sourceTree, CertificationOf(bundle, manifest, w.clock),
                TrustOf(policy, w), policy.quorum)
  }

  ghost predicate Buildable(bundle: C.Bundle, manifest: M.Manifest, w: World, now: int) {
    && w.policy.Some? && PolicyOk(w.policy.value, w.clock) && w.artifact.Some?
    && EvidenceOk(bundle, manifest, w)
    && SummaryOk(bundle, M.Returned(manifest), w.clock)
    && Fresh(CertificationOf(bundle, M.Returned(manifest), w.clock), w.policy.value.ceremony, now, w.clock)
  }

  /** `build_release_signing_request` at instant `now` with a random ceremony id. */
  method BuildReleaseSigningRequest(bundle: C.Bundle, manifest: M.Manifest, w: World, now: int, id: string)
    returns (r: Option<Request>)
    ensures r.Some? <==> Buildable(bundle, manifest, w, now)
    ensures r.Some? ==>
              var body := BuiltBody(bundle, M.Returned(manifest), w.policy.value, w.artifact.value, w, now, id);
              r.value == Request(body, w.requestHash(body))
  {
    if w.policy.None? || !PolicyOk(w.policy.value, w.clock) || w.artifact.None? {
      return None;
    }
    var verified := CheckEvidence(bundle, manifest, w);
    if verified.None? || !SummaryOk(bundle, verified.value, w.clock)
       || !Fresh(CertificationOf(bundle, verified.value, w.clock), w.policy.value.ceremony, now, w.clock)
    {
      return None;
    }
    var body := BuiltBody(bundle, verified.value, w.policy.value, w.artifact.value, w, now, id);
    return Some(Request(body, w.requestHash(body)));
  }

  /** A built request is accepted, and is open at the instant it was built. */
  lemma BuiltRequestVerifies(bundle: C.Bundle, manifest: M.Manifest, w: World, now: int, id: string)
    requires ClockOk(w.clock) && L.IsSha256(id) && Buildable(bundle, manifest, w, now)
    ensures var body := BuiltBody(bundle, M.Returned(manifest), w.policy.value, w.artifact.value, w, now, id);
            RequestOk(Request(body, w.requestHash(body)), bundle, manifest, w, Some(now))
  {
  }

  // ---------- when it may be signed ----------

  /** `_validate_signature_time` */
  predicate SignatureTimeOk(q: RequestBody, signedAt: string, clock: Clock) {
    var created, expires := At(q.createdAt, clock), At(q.ceremony.expiresAt, clock);
    var t, skew := At(signedAt, clock), Seconds(q.ceremony.limits.skew);
    && Dated(signedAt, clock) && Dated(q.createdAt, clock) && Dated(q.ceremony.expiresAt, clock)
    && created - skew <= t <= expires + skew
    && Fresh(q.certification, q.ceremony.limits, t, clock)
  }

  /** The first and last instant at which the request may be signed. */
  function Opens(q: RequestBody, clock: Clock): int {
    var c := q.certification;
    Max(At(q.createdAt, clock), Max(At(c.manifestAt, clock), Max(At(c.newestAt, clock), At(c.bundleAt, clock))))
      - Seconds(q.ceremony.limits.skew)
  }

  function Closes(q: RequestBody, clock: Clock): int {
    Min(At(q.createdAt, clock) + Seconds(q.ceremony.limits.ttl),
        At(q.certification.oldestAt, clock) + Seconds(q.ceremony.limits.maxAge)) + Seconds(q.ceremony.limits.skew)
  }

  /** What an accepted request guarantees about its times. */
  ghost predicate Timed(q: RequestBody, clock: Clock) {
    && CeremonyOk(q.ceremony.limits) && Dated(q.createdAt, clock) && Dated(q.ceremony.expiresAt, clock)
    && At(q.ceremony.expiresAt, clock) == At(q.createdAt, clock) + Seconds(q.ceremony.limits.ttl)
    && Fresh(q.certification, q.ceremony.limits, At(q.createdAt, clock), clock)
  }

  lemma AcceptedIsTimed(q: Request, bundle: C.Bundle, manifest: M.Manifest, w: World, open: Option<int>)
    requires RequestOk(q, bundle, manifest, w, open)
    ensures Timed(q.body, w.clock)
  {
  }

  lemma InWindow(q: RequestBody, signedAt: string, clock: Clock)
    requires Timed(q, clock)
    ensures SignatureTimeOk(q, signedAt, clock)
       <==> Dated(signedAt, clock) && Opens(q, clock) <= At(signedAt, clock) <= Closes(q, clock)
    ensures Opens(q, clock) <= At(q.createdAt, clock) <= Closes(q, clock)
  {
  }

  /** The accepted signing instants of an accepted request are exactly one closed interval, and it
      contains the instant of creation. */
  lemma SigningWindow(q: Request, bundle: C.Bundle, manifest: M.Manifest, w: World, open: Option<int>, signedAt: string)
    requires RequestOk(q, bundle, manifest, w, open)
    ensures SignatureTimeOk(q.body, signedAt, w.clock)
       <==> Dated(signedAt, w.clock) && Opens(q.body, w.clock) <= At(signedAt, w.clock) <= Closes(q.body, w.clock)
    ensures Opens(q.body, w.clock) <= At(q.body.createdAt, w.clock) <= Closes(q.body, w.clock)
  {
    AcceptedIsTimed(q, bundle, manifest, w, open);
    InWindow(q.body, signedAt, w.clock);
  }

  /** Two signatures of one request lie at most ttl + 2 skew apart, never more than 87000 seconds;
      at each of them the oldest report is at most max_age + skew old. */
  lemma SignaturesAreClose(q: Request, bundle: C.Bundle, manifest: M.Manifest, w: World, open: Option<int>,
                           first: string, second: string)
    requires RequestOk(q, bundle, manifest, w, open)
    requires SignatureTimeOk(q.body, first, w.clock) && SignatureTimeOk(q.body, second, w.clock)
    ensures var limits := q.body.ceremony.limits;
            && At(second, w.clock) - At(first, w.clock) <= Seconds(limits.ttl + 2 * limits.skew) <= Seconds(87000)
            && At(first, w.clock) - At(q.body.certification.oldestAt, w.clock) <= Seconds(limits.maxAge + limits.skew)
  {
    AcceptedIsTimed(q, bundle, manifest, w, open);
  }

  /** The oldest and newest times of the block bound every report in the bundle. */
  lemma SummaryBoundsReports(bundle: C.Bundle, manifest: M.Manifest, clock: Clock, i: nat)
    requires ClockOk(clock) && SummaryOk(bundle, manifest, clock) && i < |bundle.body.inputs|
    ensures var c := CertificationOf(bundle, manifest, clock);
            At(c.oldestAt, clock) <= At(bundle.body.inputs[i].generatedAt, clock) <= At(c.newestAt, clock)
  {
    var times := ReportTimes(bundle.body.inputs, clock);
    assert times[i] == At(bundle.body.inputs[i].generatedAt, clock);
    assert times[i] in times;
  }
}
