/** The chain put together: what an accepted attestation, and so a published release, stands for. */
module ReleaseChain {
  import opened Common
  import opened Permutations
  import opened Strings
  import opened Profiles
  import opened ReleaseTrust
  import opened SigningRequests
  import opened ReleaseSigning
  import opened ReleaseAttestation
  import A = BundleAgreement
  import B = ReleaseBundles
  import C = ReleaseCertification
  import E = Certification
  import J = CanonicalJson
  import L = ReleaseLineage
  import M = ExecutionManifest
  import S = StagingReports

  /** What an attestation is verified with. */
  datatype Evidence = Evidence(keys: map<string, string>, bundle: C.Bundle, manifest: M.Manifest, world: World,
                               crypto: Crypto)

  /** `verify_release_attestation` accepts. */
  ghost predicate IsAccepted(att: Attestation, x: Evidence) {
    Assembled(att.request, att.signatures, x.keys, x.bundle, x.manifest, x.world, x.crypto) == Some(att)
  }

  /** Every required gate passed, in order, and every production profile reported, for the execution
      of the manifest and the present source tree. */
  ghost predicate IsComplete(bundle: C.Bundle, manifest: M.Manifest, tree: M.Tree) {
    var rows := S.NormalRows(bundle.body.results);
    && S.Names(rows) == GATES && (forall row :: row in rows ==> row.status == S.PASS)
    && (forall p :: p in PRODUCTION ==> exists item :: item in bundle.body.inputs && B.ProfileOf(item) == p)
    && (forall item :: item in bundle.body.inputs ==>
          item.execution == S.Execution(manifest.body.executionId, manifest.evidence))
    && bundle.body.sourceTree == manifest.body.sourceTree == tree
  }

  /** The bundle and the manifest carry the hashes of their own bodies. */
  predicate IsSealed(x: Evidence) {
    && x.bundle.evidence == x.world.cert.bundle(x.bundle.body)
    && x.manifest.evidence == x.world.cert.manifest.body(x.manifest.body)
  }

  /** The request is about this artifact, bundle, manifest, tree and policy, and repeats the times of
      the evidence. */
  ghost predicate IsAbout(q: Request, x: Evidence) {
    var c, clock := q.body.certification, x.world.clock;
    && q.sha == x.world.requestHash(q.body) && q.body.schemaVersion == 2 && q.body.release == "P37"
    && x.world.artifact == Some(q.body.artifact) && q.body.sourceTree == x.world.tree
    && c.bundleSha == x.world.cert.bundle(x.bundle.body) && c.manifestSha == x.world.cert.manifest.body(x.manifest.body)
    && c.executionId == x.manifest.body.executionId && c.certified
    && At(c.bundleAt, clock) == At(x.bundle.body.generatedAt, clock)
    && At(c.manifestAt, clock) == At(x.manifest.body.generatedAt, clock)
    && x.world.policy.Some? && IsUnder(q.body, x.world.policy.value, x.world)
  }

  /** The ceremony, quorum and identity of the policy are those the request names. */
  ghost predicate IsUnder(q: RequestBody, policy: Policy, w: World) {
    && q.trust.policyId == policy.policyId && q.trust.organization == policy.organization
    && q.trust.policySha == w.policyHash(policy) && q.authorization == policy.quorum
    && q.ceremony.limits == policy.ceremony
    && At(q.ceremony.expiresAt, w.clock) == At(q.createdAt, w.clock) + 1_000_000 * policy.ceremony.ttl
    && 300 <= policy.ceremony.ttl <= 86400 && 3600 <= policy.ceremony.maxAge <= 604800 && 0 <= policy.ceremony.skew <= 300
  }

  /** The holder of this entry has signed the statement, with the key whose fingerprint it lists, in the
      role it gives, while it was valid for release 37. */
  ghost predicate IsSignedUnder(e: Envelope, entry: KeyEntry, key: string, x: Evidence) {
    var s, clock := e.statement, x.world.clock;
    && s.fingerprint == entry.fingerprint == x.crypto.fingerprint(key) && s.role == entry.role
    && entry.status == "ACTIVE" && entry.releaseMin <= 37 && (entry.releaseMax.Some? ==> 37 <= entry.releaseMax.value)
    && At(entry.notBefore, clock) <= At(s.signedAt, clock)
    && (entry.notAfter.Some? ==> At(s.signedAt, clock) <= At(entry.notAfter.value, clock))
    && e.payloadSha == x.crypto.hash(s)
    && x.crypto.decode(e.value).Some? && |x.crypto.decode(e.value).value| == 64
    && x.crypto.verify(key, s, x.crypto.decode(e.value).value)
  }

  /** The statement is about this request. */
  predicate IsOnRequest(s: Statement, q: Request, x: Evidence) {
    && s.schemaVersion == 1 && s.release == "P37" && s.algorithm == "Ed25519"
    && s.requestSha == x.world.requestHash(q.body)
  }

  /** Enough different keys of the policy, covering its roles, have signed this very request. */
  ghost predicate IsSignedByQuorum(att: Attestation, policy: Policy, x: Evidence) {
    && 2 <= policy.quorum.minimum <= |att.signatures|
    && Distinct(CleanIds(att.signatures))
    && (forall role :: role in policy.quorum.roles ==> exists e :: e in att.signatures && e.statement.role == role)
    && forall e :: e in att.signatures ==> CleanId(e) in x.keys && HasSigner(e, att.request, policy, x)
  }

  ghost predicate HasSigner(e: Envelope, q: Request, policy: Policy, x: Evidence)
    requires CleanId(e) in x.keys
  {
    && IsOnRequest(e.statement, q, x)
    && exists entry :: entry in policy.keys && entry.keyId == CleanId(e) && IsSignedUnder(e, entry, x.keys[CleanId(e)], x)
  }

  /** Any two signatures lie close together. */
  ghost predicate SignedTogether(att: Attestation, limits: Ceremony, x: Evidence) {
    forall d, e :: d in att.signatures && e in att.signatures ==>
      At(e.statement.signedAt, x.world.clock) - At(d.statement.signedAt, x.world.clock)
        <= Seconds(limits.ttl + 2 * limits.skew) <= Seconds(87000)
  }

  /** Every signature was made between creation and expiry, and after the reports and the bundle, give or
      take the allowed skew. */
  ghost predicate SignedInWindow(att: Attestation, x: Evidence) {
    var q, clock := att.request.body, x.world.clock;
    var skew := 1_000_000 * q.ceremony.limits.skew;
    forall e :: e in att.signatures ==>
      var t := At(e.statement.signedAt, clock);
      && At(q.createdAt, clock) - skew <= t <= At(q.createdAt, clock) + 1_000_000 * q.ceremony.limits.ttl + skew
      && At(x.bundle.body.generatedAt, clock) - skew <= t
      && forall item :: item in x.bundle.body.inputs ==> At(item.generatedAt, clock) - skew <= t
  }

  /** No report is stale at any signature. */
  ghost predicate SignedFresh(att: Attestation, limits: Ceremony, x: Evidence) {
    forall e, item :: e in att.signatures && item in x.bundle.body.inputs ==>
      At(e.statement.signedAt, x.world.clock) - At(item.generatedAt, x.world.clock)
        <= Seconds(limits.maxAge + limits.skew)
  }

  ghost predicate AllInTime(att: Attestation, clock: Clock) {
    forall e :: e in att.signatures ==> SignatureTimeOk(att.request.body, e.statement.signedAt, clock)
  }

  lemma EvidenceIsComplete(bundle: C.Bundle, manifest: M.Manifest, w: World)
    requires EvidenceOk(bundle, manifest, w)
    ensures IsComplete(bundle, manifest, w.tree)
  {
    A.CompleteBundleMeans(bundle, RELEASE, M.Returned(manifest), w.cert);
  }

  lemma AcceptedRequestIsAbout(q: Request, x: Evidence)
    requires ClockOk(x.world.clock) && RequestOk(q, x.bundle, x.manifest, x.world, None)
    ensures IsAbout(q, x) && IsSealed(x)
  {
  }

  lemma ReleaseIs37()
    ensures L.ReleaseNumber(RELEASE) == Some(37)
  {
    assert "37"[..1] == "3" && "3"[..0] == "" && "P37"[1..] == "37";
  }

  lemma AcceptedHasSigner(q: Request, e: Envelope, policy: Policy, x: Evidence)
    requires ClockOk(x.world.clock) && q.sha == x.world.requestHash(q.body)
    requires Accepted(q, e, Ring(policy, x.keys, x.world.clock, x.crypto))
    ensures CleanId(e) in x.keys && HasSigner(e, q, policy, x)
  {
    ReleaseIs37();
    FoundKeys(policy.keys, CleanId(e));
    var entry := FindKey(policy.keys, CleanId(e)).value;
    assert IsSignedUnder(e, entry, x.keys[CleanId(e)], x);
  }

  /** Its instant lies in the window of the request. */
  ghost predicate IsInWindow(q: RequestBody, e: Envelope, clock: Clock) {
    && Dated(e.statement.signedAt, clock)
    && Opens(q, clock) <= At(e.statement.signedAt, clock) <= Closes(q, clock)
  }

  /** Who and what, apart from when. */
  ghost predicate IsBySigner(q: Request, e: Envelope, policy: Policy, x: Evidence) {
    IsSafeId(CleanId(e)) && CleanId(e) in x.keys && HasSigner(e, q, policy, x)
  }

  lemma AcceptedIsBySigner(q: Request, e: Envelope, policy: Policy, x: Evidence)
    requires ClockOk(x.world.clock) && q.sha == x.world.requestHash(q.body) && Timed(q.body, x.world.clock)
    requires Accepted(q, e, Ring(policy, x.keys, x.world.clock, x.crypto))
    ensures IsBySigner(q, e, policy, x) && IsInWindow(q.body, e, x.world.clock)
  {
    AcceptedHasSigner(q, e, policy, x);
    AcceptedIsInTime(q, e, Ring(policy, x.keys, x.world.clock, x.crypto));
    InWindow(q.body, e.statement.signedAt, x.world.clock);
  }

  lemma BySignerIsAccepted(q: Request, e: Envelope, policy: Policy, x: Evidence)
    requires ClockOk(x.world.clock) && q.sha == x.world.requestHash(q.body) && Timed(q.body, x.world.clock)
    requires PolicyOk(policy, x.world.clock) && IsBySigner(q, e, policy, x) && IsInWindow(q.body, e, x.world.clock)
    ensures Accepted(q, e, Ring(policy, x.keys, x.world.clock, x.crypto))
  {
    var clock := x.world.clock;
    var entry :| entry in policy.keys && entry.keyId == CleanId(e) && IsSignedUnder(e, entry, x.keys[CleanId(e)], x);
    SignedIsAuthorized(e, entry, policy, x);
    InWindow(q.body, clock.write(At(e.statement.signedAt, clock)), clock);
  }

  /** An envelope on an accepted request is accepted exactly when it is signed so under an entry of the
      policy, at an instant of the request's window. */
  lemma EnvelopeAcceptedExactlyWhen(q: Request, e: Envelope, x: Evidence)
    requires ClockOk(x.world.clock) && RequestOk(q, x.bundle, x.manifest, x.world, None)
    ensures Accepted(q, e, Ring(x.world.policy.value, x.keys, x.world.clock, x.crypto))
       <==> IsBySigner(q, e, x.world.policy.value, x) && IsInWindow(q.body, e, x.world.clock)
  {
    var policy := x.world.policy.value;
    AcceptedIsTimed(q, x.bundle, x.manifest, x.world, None);
    if Accepted(q, e, Ring(policy, x.keys, x.world.clock, x.crypto)) {
      AcceptedIsBySigner(q, e, policy, x);
    }
    if IsBySigner(q, e, policy, x) && IsInWindow(q.body, e, x.world.clock) {
      BySignerIsAccepted(q, e, policy, x);
    }
  }

  lemma SignedIsAuthorized(e: Envelope, entry: KeyEntry, policy: Policy, x: Evidence)
    requires ClockOk(x.world.clock) && PolicyOk(policy, x.world.clock) && CleanId(e) in x.keys
    requires entry in policy.keys && entry.keyId == CleanId(e) && IsSignedUnder(e, entry, x.keys[CleanId(e)], x)
    ensures Authorize(policy, SignerOf(e), RELEASE, x.world.clock.write(At(e.statement.signedAt, x.world.clock)), x.world.clock)
         == Some(entry)
  {
    var signedAt := x.world.clock.write(At(e.statement.signedAt, x.world.clock));
    assert x.world.clock.parse(signedAt) == Some(At(e.statement.signedAt, x.world.clock));
    ReleaseIs37();
    AuthorizedExactlyWhen(policy, SignerOf(e), RELEASE, signedAt, x.world.clock, entry);
  }

  lemma AcceptedEnvelopes(att: Attestation, policy: Policy, x: Evidence)
    requires ClockOk(x.world.clock) && PolicyOk(policy, x.world.clock)
    requires att.request.sha == x.world.requestHash(att.request.body)
    requires EnvelopesOk(att.request, att.signatures, Ring(policy, x.keys, x.world.clock, x.crypto))
    ensures IsSignedByQuorum(att, policy, x)
  {
    forall e | e in att.signatures ensures CleanId(e) in x.keys && HasSigner(e, att.request, policy, x) {
      AcceptedHasSigner(att.request, e, policy, x);
    }
    forall role | role in policy.quorum.roles ensures exists e :: e in att.signatures && e.statement.role == role {
      assert role in SignedRoles(att.signatures);
    }
  }

  /** An accepted signature was made at an instant at which the request could be signed. */
  lemma AcceptedIsInTime(q: Request, e: Envelope, ring: Ring)
    requires ClockOk(ring.clock) && Accepted(q, e, ring)
    ensures SignatureTimeOk(q.body, e.statement.signedAt, ring.clock)
  {
    var t := At(e.statement.signedAt, ring.clock);
    assert ring.clock.parse(ring.clock.write(t)) == Some(t);
  }

  lemma ReportIsFresh(q: Request, e: Envelope, item: C.Input, x: Evidence)
    requires ClockOk(x.world.clock) && RequestOk(q, x.bundle, x.manifest, x.world, None)
    requires SignatureTimeOk(q.body, e.statement.signedAt, x.world.clock) && item in x.bundle.body.inputs
    ensures At(e.statement.signedAt, x.world.clock) - At(item.generatedAt, x.world.clock)
         <= Seconds(q.body.ceremony.limits.maxAge + q.body.ceremony.limits.skew)
  {
    var i :| 0 <= i < |x.bundle.body.inputs| && x.bundle.body.inputs[i] == item;
    SummaryBoundsReports(x.bundle, M.Returned(x.manifest), x.world.clock, i);
    SignaturesAreClose(q, x.bundle, x.manifest, x.world, None, e.statement.signedAt, e.statement.signedAt);
  }

  lemma AcceptedAreInTime(att: Attestation, ring: Ring)
    requires ClockOk(ring.clock) && AllAccepted(att.request, att.signatures, ring)
    ensures AllInTime(att, ring.clock)
  {
    forall e | e in att.signatures ensures SignatureTimeOk(att.request.body, e.statement.signedAt, ring.clock) {
      AcceptedIsInTime(att.request, e, ring);
    }
  }

  lemma InTimeIsTogether(att: Attestation, x: Evidence)
    requires RequestOk(att.request, x.bundle, x.manifest, x.world, None) && AllInTime(att, x.world.clock)
    ensures SignedTogether(att, att.request.body.ceremony.limits, x)
  {
    forall d, e | d in att.signatures && e in att.signatures
      ensures At(e.statement.signedAt, x.world.clock) - At(d.statement.signedAt, x.world.clock)
           <= Seconds(att.request.body.ceremony.limits.ttl + 2 * att.request.body.ceremony.limits.skew)
           <= Seconds(87000)
    {
      SignaturesAreClose(att.request, x.bundle, x.manifest, x.world, None, d.statement.signedAt, e.statement.signedAt);
    }
  }

  lemma InTimeIsInWindow(att: Attestation, x: Evidence)
    requires ClockOk(x.world.clock) && AllInTime(att, x.world.clock)
    requires RequestOk(att.request, x.bundle, x.manifest, x.world, None)
    ensures SignedInWindow(att, x)
  {
    forall item | item in x.bundle.body.inputs
      ensures At(item.generatedAt, x.world.clock) <= At(att.request.body.certification.newestAt, x.world.clock)
    {
      var i :| 0 <= i < |x.bundle.body.inputs| && x.bundle.body.inputs[i] == item;
      SummaryBoundsReports(x.bundle, M.Returned(x.manifest), x.world.clock, i);
    }
  }

  lemma InTimeIsFresh(att: Attestation, x: Evidence)
    requires ClockOk(x.world.clock) && AllInTime(att, x.world.clock)
    requires RequestOk(att.request, x.bundle, x.manifest, x.world, None)
    ensures SignedFresh(att, att.request.body.ceremony.limits, x)
  {
    forall e, item | e in att.signatures && item in x.bundle.body.inputs
      ensures At(e.statement.signedAt, x.world.clock) - At(item.generatedAt, x.world.clock)
           <= Seconds(att.request.body.ceremony.limits.maxAge + att.request.body.ceremony.limits.skew)
    {
      ReportIsFresh(att.request, e, item, x);
    }
  }

  /** What an accepted attestation stands for: its request is about the present artifact and tree; the
      certification behind it is complete; a quorum of active keys has signed that request; and all of
      them signed close together, on fresh reports. */
  lemma AcceptedAttestationMeans(att: Attestation, x: Evidence)
    requires ClockOk(x.world.clock) && IsAccepted(att, x)
    ensures IsSealed(x) && IsAbout(att.request, x) && IsComplete(x.bundle, x.manifest, x.world.tree)
    ensures x.world.policy.Some? && IsSignedByQuorum(att, x.world.policy.value, x)
    ensures SignedInWindow(att, x) && SignedTogether(att, att.request.body.ceremony.limits, x)
    ensures SignedFresh(att, att.request.body.ceremony.limits, x)
  {
    FixedExactlyWhenInOrder(att, x.keys, x.bundle, x.manifest, x.world, x.crypto);
    EvidenceIsComplete(x.bundle, x.manifest, x.world);
    AcceptedRequestIsAbout(att.request, x);
    AcceptedEnvelopes(att, x.world.policy.value, x);
    AcceptedAreInTime(att, Ring(x.world.policy.value, x.keys, x.world.clock, x.crypto));
    InTimeIsInWindow(att, x);
    InTimeIsTogether(att, x);
    InTimeIsFresh(att, x);
  }

  // ---------- an honest ceremony ----------

  function RoleOf(g: Signing, policy: Policy, clock: Clock, k: Crypto): string {
    var entry := SigningEntry(g, policy, clock, k);
    if entry.Some? then entry.value.role else ""
  }

  /** What each signer of the request makes. */
  function Envelopes(q: Request, signings: seq<Signing>, policy: Policy, clock: Clock, k: Crypto): (r: seq<Envelope>)
    ensures |r| == |signings|
  {
    seq(|signings|, i requires 0 <= i < |signings| =>
      SignedEnvelope(q, signings[i], RoleOf(signings[i], policy, clock, k), clock, k))
  }

  /** Different entitled signers, each with the key it lists. */
  ghost predicate CanSign(q: Request, signings: seq<Signing>, ring: Ring) {
    && (forall i :: 0 <= i < |signings| ==>
          var g := signings[i];
          MaySign(q, g, ring.policy, ring.clock, ring.crypto)
          && Strip(g.keyId) in ring.keys && ring.keys[Strip(g.keyId)] == ring.crypto.publicOf(g.privateKey))
    && (forall i, j :: 0 <= i < j < |signings| ==> Strip(signings[i].keyId) != Strip(signings[j].keyId))
  }

  /** As many signers as the policy asks for, with the roles it asks for. */
  ghost predicate Suffice(signings: seq<Signing>, ring: Ring) {
    && ring.policy.quorum.minimum <= |signings|
    && forall role :: role in ring.policy.quorum.roles ==>
         exists i :: 0 <= i < |signings| && RoleOf(signings[i], ring.policy, ring.clock, ring.crypto) == role
  }

  lemma HonestEnvelope(q: Request, g: Signing, ring: Ring)
    requires ClockOk(ring.clock) && CryptoOk(ring.crypto) && MaySign(q, g, ring.policy, ring.clock, ring.crypto)
    requires Strip(g.keyId) in ring.keys && ring.keys[Strip(g.keyId)] == ring.crypto.publicOf(g.privateKey)
    ensures var e := SignedEnvelope(q, g, RoleOf(g, ring.policy, ring.clock, ring.crypto), ring.clock, ring.crypto);
            Accepted(q, e, ring) && CleanId(e) == Strip(g.keyId)
  {
    StripStrips(g.keyId);
    SignedEnvelopeVerifies(q, g, ring.policy, ring.clock, ring.crypto);
  }

  lemma HonestEnvelopes(q: Request, signings: seq<Signing>, ring: Ring)
    requires ClockOk(ring.clock) && CryptoOk(ring.crypto) && CanSign(q, signings, ring)
    ensures var es := Envelopes(q, signings, ring.policy, ring.clock, ring.crypto);
            AllAccepted(q, es, ring) && Distinct(CleanIds(es))
  {
    var es := Envelopes(q, signings, ring.policy, ring.clock, ring.crypto);
    forall i | 0 <= i < |es| ensures Accepted(q, es[i], ring) && CleanIds(es)[i] == Strip(signings[i].keyId) {
      HonestEnvelope(q, signings[i], ring);
    }
  }

  lemma HonestQuorum(q: Request, signings: seq<Signing>, ring: Ring)
    requires ClockOk(ring.clock) && CryptoOk(ring.crypto) && CanSign(q, signings, ring) && Suffice(signings, ring)
    requires PolicyOk(ring.policy, ring.clock)
    ensures EnvelopesOk(q, Envelopes(q, signings, ring.policy, ring.clock, ring.crypto), ring)
  {
    var es := Envelopes(q, signings, ring.policy, ring.clock, ring.crypto);
    HonestEnvelopes(q, signings, ring);
    forall role | role in ring.policy.quorum.roles ensures role in SignedRoles(es) {
      var i :| 0 <= i < |signings| && RoleOf(signings[i], ring.policy, ring.clock, ring.crypto) == role;
      assert es[i] in es && es[i].statement.role == role;
    }
  }

  /** Enough entitled signers with the roles the policy asks for, each signing an accepted request with
      the key it lists: their signatures assemble, and what is assembled is accepted. */
  lemma HonestCeremonySucceeds(q: Request, signings: seq<Signing>, x: Evidence)
    requires ClockOk(x.world.clock) && CryptoOk(x.crypto) && RequestOk(q, x.bundle, x.manifest, x.world, None)
    requires var ring := Ring(x.world.policy.value, x.keys, x.world.clock, x.crypto);
             CanSign(q, signings, ring) && Suffice(signings, ring)
    ensures var es := Envelopes(q, signings, x.world.policy.value, x.world.clock, x.crypto);
            var r := Assembled(q, es, x.keys, x.bundle, x.manifest, x.world, x.crypto);
            r.Some? && multiset(r.value.signatures) == multiset(es) && IsAccepted(r.value, x)
  {
    var es := Envelopes(q, signings, x.world.policy.value, x.world.clock, x.crypto);
    HonestQuorum(q, signings, Ring(x.world.policy.value, x.keys, x.world.clock, x.crypto));
    SortPermutes(es);
    AssemblyIsIdempotent(q, es, x.keys, x.bundle, x.manifest, x.world, x.crypto);
  }

  // ---------- publication ----------

  /** The request to the lineage is about this attestation and artifact: `encode` gives the payload
      of an attestation, and `valid` is what its verification said. */
  ghost predicate Carries(q: L.Request, encode: Attestation -> E.Payload, att: Attestation, x: Evidence) {
    && q.attestation == encode(att) && L.ReleaseOf(encode(att)) == J.Str(att.release)
    && x.world.artifact.Some? && x.world.artifact.value.sha == q.artifact
    && (q.valid ==> IsAccepted(att, x))
  }

  /** The checkpoint names this very release: its codename, the artifact its signers signed, and the
      hash of its attestation. */
  ghost predicate NamesRelease(c: L.Checkpoint, encode: Attestation -> E.Payload, att: Attestation, env: L.Env) {
    && c.release == J.Str(RELEASE) && c.artifact == J.Str(att.request.body.artifact.sha)
    && c.attestation == J.Str(L.AttestationHash(encode(att), env.h))
  }

  lemma AcceptedRelease(att: Attestation, x: Evidence)
    requires IsAccepted(att, x)
    ensures att.release == RELEASE
  {
    FixedExactlyWhenInOrder(att, x.keys, x.bundle, x.manifest, x.world, x.crypto);
  }

  /** In every run of the lineage without a forged head, each published checkpoint names the release
      of an accepted attestation, and that release stands for all of the above. */
  lemma PublishedReleaseMeans(requests: seq<L.Request>, env: L.Env, n: nat, encode: Attestation -> E.Payload,
                              att: Attestation, x: Evidence)
    requires L.EnvOk(env) && L.RequestsOk(requests, env) && !L.SomeForges(requests, env)
    requires n < |L.Lineage(requests, env)| && ClockOk(x.world.clock)
    requires Carries(L.Lineage(requests, env)[n].request, encode, att, x)
    ensures NamesRelease(L.Lineage(requests, env)[n].checkpoint, encode, att, env)
    ensures IsSealed(x) && IsAbout(att.request, x) && IsComplete(x.bundle, x.manifest, x.world.tree)
    ensures x.world.policy.Some? && IsSignedByQuorum(att, x.world.policy.value, x)
    ensures SignedInWindow(att, x) && SignedTogether(att, att.request.body.ceremony.limits, x)
    ensures SignedFresh(att, att.request.body.ceremony.limits, x)
  {
    L.EveryRunKeepsChain(requests, env);
    assert L.LinkOk(L.Lineage(requests, env), n, env);
    AcceptedAttestationMeans(att, x);
    AcceptedRelease(att, x);
  }

  /** A release matched against a trusted head is the one the presented checkpoint names, and stands
      for all of it too. */
  lemma MatchedReleaseMeans(checkpoint: L.Presented, head: string, q: L.Request, minimum: Option<int>, env: L.Env,
                            encode: Attestation -> E.Payload, att: Attestation, x: Evidence)
    requires L.MatchesLineage(checkpoint, head, q, minimum, env) && ClockOk(x.world.clock)
    requires Carries(q, encode, att, x)
    ensures NamesRelease(checkpoint.value, encode, att, env) && (minimum.Some? ==> 1 <= minimum.value <= 37)
    ensures IsSealed(x) && IsAbout(att.request, x) && IsComplete(x.bundle, x.manifest, x.world.tree)
    ensures x.world.policy.Some? && IsSignedByQuorum(att, x.world.policy.value, x)
    ensures SignedInWindow(att, x) && SignedTogether(att, att.request.body.ceremony.limits, x)
    ensures SignedFresh(att, att.request.body.ceremony.limits, x)
  {
    ReleaseIs37();
    AcceptedAttestationMeans(att, x);
    AcceptedRelease(att, x);
  }
}
