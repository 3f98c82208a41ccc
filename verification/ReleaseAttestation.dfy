/** The attestation assembled from detached signatures, and its one canonical form. */
module ReleaseAttestation {
  import opened Common
  import opened Strings
  import opened Permutations
  import opened Profiles
  import opened ReleaseTrust
  import opened SigningRequests
  import opened ReleaseSigning
  import C = ReleaseCertification
  import M = ExecutionManifest

  /** The policy and public keys signatures are checked with. */
  datatype Ring = Ring(policy: Policy, keys: map<string, string>, clock: Clock, crypto: Crypto)

  function CleanId(e: Envelope): string { Strip(KeyId(e)) }

  function CleanIds(es: seq<Envelope>): (r: seq<string>)
    ensures |r| == |es|
  {
    seq(|es|, i requires 0 <= i < |es| => CleanId(es[i]))
  }

  function SignedRoles(es: seq<Envelope>): set<string> { set e | e in es :: e.statement.role }

  function SignedFingerprints(es: seq<Envelope>): set<string> { set e | e in es :: e.statement.fingerprint }

  predicate Accepted(q: Request, e: Envelope, ring: Ring) {
    && IsSafeId(CleanId(e)) && CleanId(e) in ring.keys
    && AuthorizedBy(q, e, ring.keys[CleanId(e)], ring.policy, ring.clock, ring.crypto).Some?
  }

  ghost predicate AllAccepted(q: Request, es: seq<Envelope>, ring: Ring) {
    forall e :: e in es ==> Accepted(q, e, ring)
  }

  /** Enough accepted signatures, from different keys, covering the required roles. */
  ghost predicate EnvelopesOk(q: Request, es: seq<Envelope>, ring: Ring) {
    && AllAccepted(q, es, ring) && Distinct(CleanIds(es))
    && ring.policy.quorum.minimum <= |es| && es != []
    && Elements(ring.policy.quorum.roles) <= SignedRoles(es)
  }

  // ---------- collecting ----------

  /** Two accepted envelopes share a fingerprint only when they share a key id. */
  lemma AcceptedFingerprints(q: Request, a: Envelope, b: Envelope, ring: Ring)
    requires Accepted(q, a, ring) && Accepted(q, b, ring)
    ensures a.statement.fingerprint == b.statement.fingerprint <==> CleanId(a) == CleanId(b)
  {
    FingerprintsFollowKeyIds(ring.policy, SignerOf(a), SignerOf(b), RELEASE,
                             ring.clock.write(At(a.statement.signedAt, ring.clock)),
                             ring.clock.write(At(b.statement.signedAt, ring.clock)), ring.clock);
  }

  /** What the loop has collected after the envelopes in `passed`. */
  ghost predicate Collected(q: Request, passed: seq<Envelope>, ring: Ring, ids: set<string>, fingerprints: set<string>,
                            roles: set<string>) {
    && AllAccepted(q, passed, ring) && Distinct(CleanIds(passed))
    && ids == Elements(CleanIds(passed))
    && fingerprints == SignedFingerprints(passed) && roles == SignedRoles(passed)
  }

  lemma NextEnvelope(q: Request, passed: seq<Envelope>, e: Envelope, ring: Ring, ids: set<string>,
                     fingerprints: set<string>, roles: set<string>)
    requires Collected(q, passed, ring, ids, fingerprints, roles) && Accepted(q, e, ring) && CleanId(e) !in ids
    ensures e.statement.fingerprint !in fingerprints
    ensures Collected(q, passed + [e], ring, ids + {CleanId(e)}, fingerprints + {e.statement.fingerprint},
                      roles + {e.statement.role})
  {
    var next := passed + [e];
    assert CleanIds(next) == CleanIds(passed) + [CleanId(e)];
    assert forall x :: x in next <==> x in passed || x == e;
    forall x | x in passed ensures x.statement.fingerprint != e.statement.fingerprint {
      var i :| 0 <= i < |passed| && passed[i] == x;
      assert CleanIds(passed)[i] == CleanId(x);
      AcceptedFingerprints(q, x, e, ring);
    }
  }

  lemma RepeatedId(es: seq<Envelope>, i: nat)
    requires i < |es| && CleanId(es[i]) in CleanIds(es[..i])
    ensures !Distinct(CleanIds(es))
  {
    var j :| 0 <= j < i && CleanIds(es[..i])[j] == CleanId(es[i]);
    assert CleanIds(es)[j] == CleanIds(es)[i];
  }

  /** The loop of `assemble_release_attestation`.  Its check of fingerprints is made as in the
      source and proved unable to fail once the key ids differ. */
  method CollectSignatures(q: Request, es: seq<Envelope>, ring: Ring) returns (ok: bool, roles: set<string>)
    ensures ok <==> AllAccepted(q, es, ring) && Distinct(CleanIds(es))
    ensures ok ==> roles == SignedRoles(es)
  {
    var seenIds: set<string>, seenFingerprints: set<string> := {}, {};
    roles := {};
    for i := 0 to |es|
      invariant Collected(q, es[..i], ring, seenIds, seenFingerprints, roles)
    {
      var e := es[i];
      assert es[..i + 1] == es[..i] + [e];
      var keyId := Strip(KeyId(e));
      if keyId in seenIds {
        RepeatedId(es, i);
        return false, roles;
      }
      if !Accepted(q, e, ring) {
        assert e in es;
        return false, roles;
      }
      NextEnvelope(q, es[..i], e, ring, seenIds, seenFingerprints, roles);
      if e.statement.fingerprint in seenFingerprints {
        assert false;
      }
      seenIds := seenIds + {keyId};
      seenFingerprints := seenFingerprints + {e.statement.fingerprint};
      roles := roles + {e.statement.role};
    }
    assert es[..|es|] == es;
    return true, roles;
  }

  method CheckEnvelopes(q: Request, es: seq<Envelope>, ring: Ring) returns (ok: bool)
    ensures ok <==> EnvelopesOk(q, es, ring)
  {
    if es == [] {
      return false;
    }
    var allOk, roles := CollectSignatures(q, es, ring);
    if !allOk || |es| < ring.policy.quorum.minimum {
      return false;
    }
    var missing := Elements(ring.policy.quorum.roles) - roles;
    forall role | role in Elements(ring.policy.quorum.roles) ensures role in roles <==> role !in missing {}
    return missing == {};
  }

  ghost function Assembled(q: Request, es: seq<Envelope>, keys: map<string, string>, bundle: C.Bundle,
                           manifest: M.Manifest, w: World, k: Crypto): Option<Attestation> {
    if w.policy.Some? && RequestOk(q, bundle, manifest, w, None)
       && EnvelopesOk(q, es, Ring(w.policy.value, keys, w.clock, k))
    then Some(Attestation(5, RELEASE, q, SortedEnvelopes(es)))
    else None
  }

  /** `assemble_release_attestation` */
  method AssembleReleaseAttestation(q: Request, es: seq<Envelope>, keys: map<string, string>, bundle: C.Bundle,
                                    manifest: M.Manifest, w: World, k: Crypto)
    returns (r: Option<Attestation>)
    ensures r == Assembled(q, es, keys, bundle, manifest, w, k)
  {
    var requestOk := VerifySigningRequest(q, bundle, manifest, w, None);
    if !requestOk {
      return None;
    }
    var envelopesOk := CheckEnvelopes(q, es, Ring(w.policy.value, keys, w.clock, k));
    if !envelopesOk {
      return None;
    }
    return Some(Attestation(5, RELEASE, q, SortedEnvelopes(es)));
  }

  // ---------- one canonical form ----------

  lemma CleanIdsDiffer(es: seq<Envelope>)
    requires Distinct(CleanIds(es))
    ensures DistinctIds(es) && Distinct(es)
  {
    forall i, j | 0 <= i < j < |es| ensures KeyId(es[i]) != KeyId(es[j]) {
      assert CleanIds(es)[i] != CleanIds(es)[j];
    }
  }

  lemma RearrangedIdsDiffer(a: seq<Envelope>, b: seq<Envelope>)
    requires multiset(a) == multiset(b) && Distinct(CleanIds(a))
    ensures Distinct(CleanIds(b))
  {
    CleanIdsDiffer(a);
    RearrangedDistinct(b, a);
    RearrangedElements(a, b);
    forall i, j | 0 <= i < j < |b| ensures CleanIds(b)[i] != CleanIds(b)[j] {
      assert b[i] in a && b[j] in a;
      var x :| 0 <= x < |a| && a[x] == b[i];
      var y :| 0 <= y < |a| && a[y] == b[j];
      assert CleanIds(a)[x] == CleanIds(b)[i] && CleanIds(a)[y] == CleanIds(b)[j];
    }
  }

  lemma RearrangedEnvelopesOk(q: Request, a: seq<Envelope>, b: seq<Envelope>, ring: Ring)
    requires multiset(a) == multiset(b) && EnvelopesOk(q, a, ring)
    ensures EnvelopesOk(q, b, ring) && SortedEnvelopes(a) == SortedEnvelopes(b)
  {
    RearrangedElements(a, b);
    RearrangedIdsDiffer(a, b);
    SortsAlike(a, b);
    assert SignedRoles(a) == SignedRoles(b);
  }

  lemma SortsAlike(a: seq<Envelope>, b: seq<Envelope>)
    requires multiset(a) == multiset(b) && Distinct(CleanIds(a)) && Distinct(CleanIds(b))
    ensures SortedEnvelopes(a) == SortedEnvelopes(b)
  {
    CleanIdsDiffer(a);
    CleanIdsDiffer(b);
    SortOrders(a);
    SortOrders(b);
    SortPermutes(a);
    SortPermutes(b);
    OrderIsUnique(SortedEnvelopes(a), SortedEnvelopes(b));
  }

  /** Assembling the same envelopes in any other order gives the same attestation, or none. */
  lemma AssemblyIgnoresOrder(q: Request, a: seq<Envelope>, b: seq<Envelope>, keys: map<string, string>, bundle: C.Bundle,
                             manifest: M.Manifest, w: World, k: Crypto)
    requires multiset(a) == multiset(b)
    ensures Assembled(q, a, keys, bundle, manifest, w, k) == Assembled(q, b, keys, bundle, manifest, w, k)
  {
    if w.policy.Some? {
      var ring := Ring(w.policy.value, keys, w.clock, k);
      if EnvelopesOk(q, a, ring) { RearrangedEnvelopesOk(q, a, b, ring); }
      if EnvelopesOk(q, b, ring) { RearrangedEnvelopesOk(q, b, a, ring); }
    }
  }

  lemma SortedIsFixed(es: seq<Envelope>)
    requires Distinct(CleanIds(es))
    ensures SortedEnvelopes(es) == es <==> InOrder(es)
  {
    CleanIdsDiffer(es);
    SortOrders(es);
    SortPermutes(es);
    if InOrder(es) {
      OrderIsUnique(SortedEnvelopes(es), es);
    }
  }

  /** Assembling the signatures of an assembled attestation gives it back. */
  lemma AssemblyIsIdempotent(q: Request, es: seq<Envelope>, keys: map<string, string>, bundle: C.Bundle,
                             manifest: M.Manifest, w: World, k: Crypto)
    requires Assembled(q, es, keys, bundle, manifest, w, k).Some?
    ensures var att := Assembled(q, es, keys, bundle, manifest, w, k);
            Assembled(q, att.value.signatures, keys, bundle, manifest, w, k) == att
  {
    SortPermutes(es);
    AssemblyIgnoresOrder(q, SortedEnvelopes(es), es, keys, bundle, manifest, w, k);
  }

  /** An attestation equals its own assembly exactly when its request is accepted and its
      signatures are an accepted set in strict order of key id. */
  lemma FixedExactlyWhenInOrder(att: Attestation, keys: map<string, string>, bundle: C.Bundle, manifest: M.Manifest,
                                w: World, k: Crypto)
    ensures Assembled(att.request, att.signatures, keys, bundle, manifest, w, k) == Some(att)
       <==> && att.schemaVersion == 5 && att.release == RELEASE
            && w.policy.Some? && RequestOk(att.request, bundle, manifest, w, None)
            && EnvelopesOk(att.request, att.signatures, Ring(w.policy.value, keys, w.clock, k))
            && InOrder(att.signatures)
  {
    if Distinct(CleanIds(att.signatures)) {
      SortedIsFixed(att.signatures);
    }
  }

  function KeyIdSet(es: seq<Envelope>): set<string> { set e | e in es :: KeyId(e) }

  /** `verify_release_attestation` accepts exactly the fixed points of assembly (with the policy id
      and the signers the caller expects, when it names them). */
  method VerifyReleaseAttestation(att: Attestation, keys: map<string, string>, bundle: C.Bundle, manifest: M.Manifest,
                                  policyId: Option<string>, keyIds: Option<set<string>>, w: World, k: Crypto)
    returns (ok: bool)
    ensures ok <==>
              && Assembled(att.request, att.signatures, keys, bundle, manifest, w, k) == Some(att)
              && (policyId.Some? ==> w.policy.Some? && w.policy.value.policyId == policyId.value)
              && (keyIds.Some? ==> KeyIdSet(att.signatures) == keyIds.value)
  {
    if att.schemaVersion != 5 || att.release != RELEASE || w.policy.None? {
      return false;
    }
    if policyId.Some? && w.policy.value.policyId != policyId.value {
      return false;
    }
    var expected := AssembleReleaseAttestation(att.request, att.signatures, keys, bundle, manifest, w, k);
    if expected != Some(att) {
      return false;
    }
    return keyIds.Some? ==> KeyIdSet(att.signatures) == keyIds.value;
  }

  // ---------- two readings of the quorum ----------

  function SignersOf(es: seq<Envelope>): (r: seq<Signer>)
    ensures |r| == |es|
  {
    seq(|es|, i requires 0 <= i < |es| => SignerOf(es[i]))
  }

  /** All signatures were made at one instant. */
  predicate Simultaneous(es: seq<Envelope>, t: int, clock: Clock) {
    forall e :: e in es ==> At(e.statement.signedAt, clock) == t
  }

  lemma AcceptedIsAuthorized(q: Request, e: Envelope, ring: Ring)
    requires Accepted(q, e, ring)
    ensures var signedAt := ring.clock.write(At(e.statement.signedAt, ring.clock));
            && Authorize(ring.policy, SignerOf(e), RELEASE, signedAt, ring.clock).Some?
            && FindKey(ring.policy.keys, SignerOf(e).keyId).Some?
            && FindKey(ring.policy.keys, SignerOf(e).keyId).value.role == e.statement.role
  {
  }

  lemma SignerRolesAgree(q: Request, es: seq<Envelope>, ring: Ring)
    requires AllAccepted(q, es, ring)
    ensures RolesOf(ring.policy, SignersOf(es)) == SignedRoles(es)
  {
    forall e | e in es
      ensures && SignerOf(e) in SignersOf(es) && FindKey(ring.policy.keys, SignerOf(e).keyId).Some?
              && FindKey(ring.policy.keys, SignerOf(e).keyId).value.role == e.statement.role
    {
      AcceptedIsAuthorized(q, e, ring);
      var i :| 0 <= i < |es| && es[i] == e;
      assert SignersOf(es)[i] == SignerOf(e);
    }
    forall s | s in SignersOf(es) ensures exists e :: e in es && SignerOf(e) == s {
      var i :| 0 <= i < |es| && SignersOf(es)[i] == s;
      assert es[i] in es;
    }
  }

  /** For accepted envelopes signed at one instant, the quorum counted while assembling is the
      quorum `require_authorized_quorum` decides on the list of signers. */
  lemma QuorumsAgree(q: Request, es: seq<Envelope>, t: int, ring: Ring)
    requires PolicyOk(ring.policy, ring.clock) && AllAccepted(q, es, ring) && Simultaneous(es, t, ring.clock)
    ensures EnvelopesOk(q, es, ring)
       <==> QuorumMet(ring.policy, SignersOf(es), RELEASE, ring.clock.write(t), ring.clock)
  {
    QuorumMetExactlyWhen(ring.policy, SignersOf(es), RELEASE, ring.clock.write(t), ring.clock);
    SignerRolesAgree(q, es, ring);
    assert SignerIds(SignersOf(es)) == CleanIds(es);
    forall s | s in SignersOf(es)
      ensures Authorize(ring.policy, s, RELEASE, ring.clock.write(t), ring.clock).Some?
    {
      var i :| 0 <= i < |es| && SignersOf(es)[i] == s;
      assert es[i] in es;
      AcceptedIsAuthorized(q, es[i], ring);
    }
  }
}
