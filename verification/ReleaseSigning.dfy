/** Detached signatures on a release request, and the attestation assembled from them.

    Ed25519 (section 5.1 of RFC 8032) is a pair of functions; the one law a statement may ask of
    them is that a signature made with a private key verifies under its public key. */
module ReleaseSigning {
  import opened Common
  import opened Strings
  import opened Permutations
  import opened Profiles
  import opened ReleaseTrust
  import opened SigningRequests
  import C = ReleaseCertification
  import J = CanonicalJson
  import M = ExecutionManifest

  datatype Statement = Statement(schemaVersion: int, release: string, requestSha: string, keyId: string, role: string,
                                 fingerprint: string, algorithm: string, signedAt: string)
  datatype Envelope = Envelope(statement: Statement, payloadSha: string, value: string)
  datatype Attestation = Attestation(schemaVersion: int, release: string, request: Request, signatures: seq<Envelope>)

  /** Keys, signatures and messages are texts; `hash` digests the message of a statement. */
  datatype Crypto = Crypto(sign: (string, Statement) -> string, verify: (string, Statement, string) -> bool,
                           publicOf: string -> string, fingerprint: string -> string, hash: Statement -> string,
                           encode: string -> string, decode: string -> Option<string>)

  ghost predicate CryptoOk(k: Crypto) {
    && (forall key, s :: k.verify(k.publicOf(key), s, k.sign(key, s)) && |k.sign(key, s)| == 64)
    && (forall text :: k.decode(k.encode(text)) == Some(text))
  }

  const ALGORITHM := "Ed25519"

  // ---------- one envelope ----------

  /** `_verify_signature_envelope_or_raise` under a policy; the entry it returns. */
  function AuthorizedBy(q: Request, e: Envelope, publicKey: string, policy: Policy, clock: Clock, k: Crypto): Option<KeyEntry> {
    var s := e.statement;
    if HeadOk(q, s) && IsSafeId(Strip(s.keyId))
       && Dated(s.signedAt, clock) && SignatureTimeOk(q.body, clock.write(At(s.signedAt, clock)), clock)
       && s.fingerprint == k.fingerprint(publicKey)
       && SealOk(e, publicKey, k)
    then
      var entry := Authorize(policy, SignerOf(e), RELEASE, clock.write(At(s.signedAt, clock)), clock);
      if entry.Some? && entry.value.role == s.role then entry else None
    else None
  }

  predicate HeadOk(q: Request, s: Statement) {
    s.schemaVersion == 1 && s.release == RELEASE && s.requestSha == q.sha && s.algorithm == ALGORITHM
  }

  predicate SealOk(e: Envelope, publicKey: string, k: Crypto) {
    var signature := k.decode(e.value);
    && e.payloadSha == k.hash(e.statement)
    && signature.Some? && |signature.value| == 64 && k.verify(publicKey, e.statement, signature.value)
  }

  function SignerOf(e: Envelope): Signer { Signer(Strip(e.statement.keyId), e.statement.fingerprint) }

  // ---------- signing ----------

  /** What one signer brings: the key id as typed, the private key, and the instant of signing. */
  datatype Signing = Signing(keyId: string, privateKey: string, now: int)

  function SigningEntry(g: Signing, policy: Policy, clock: Clock, k: Crypto): Option<KeyEntry> {
    Authorize(policy, Signer(Strip(g.keyId), k.fingerprint(k.publicOf(g.privateKey))), RELEASE, clock.write(g.now), clock)
  }

  predicate MaySign(q: Request, g: Signing, policy: Policy, clock: Clock, k: Crypto) {
    && IsSafeId(Strip(g.keyId)) && SignatureTimeOk(q.body, clock.write(g.now), clock)
    && SigningEntry(g, policy, clock, k).Some?
  }

  function SignedEnvelope(q: Request, g: Signing, role: string, clock: Clock, k: Crypto): Envelope {
    var s := Statement(1, RELEASE, q.sha, Strip(g.keyId), role, k.fingerprint(k.publicOf(g.privateKey)), ALGORITHM,
                       clock.write(g.now));
    Envelope(s, k.hash(s), k.encode(k.sign(g.privateKey, s)))
  }

  /** `sign_release_request`, the request being checked at instant `open`. */
  method SignReleaseRequest(q: Request, g: Signing, open: int, bundle: C.Bundle, manifest: M.Manifest, w: World, k: Crypto)
    returns (r: Option<Envelope>)
    ensures r.Some? <==> RequestOk(q, bundle, manifest, w, Some(open)) && MaySign(q, g, w.policy.value, w.clock, k)
    ensures r.Some? ==>
              r.value == SignedEnvelope(q, g, SigningEntry(g, w.policy.value, w.clock, k).value.role, w.clock, k)
  {
    var requestOk := VerifySigningRequest(q, bundle, manifest, w, Some(open));
    if !requestOk || !MaySign(q, g, w.policy.value, w.clock, k) {
      return None;
    }
    var fingerprint := k.fingerprint(k.publicOf(g.privateKey));
    var role := SigningEntry(g, w.policy.value, w.clock, k).value.role;
    var s := Statement(1, RELEASE, q.sha, Strip(g.keyId), role, fingerprint, ALGORITHM, w.clock.write(g.now));
    return Some(Envelope(s, k.hash(s), k.encode(k.sign(g.privateKey, s))));
  }

  /** A signature made is a signature that verifies, under the public half of the key. */
  lemma SignedEnvelopeVerifies(q: Request, g: Signing, policy: Policy, clock: Clock, k: Crypto)
    requires ClockOk(clock) && CryptoOk(k) && MaySign(q, g, policy, clock, k)
    ensures var entry := SigningEntry(g, policy, clock, k);
            AuthorizedBy(q, SignedEnvelope(q, g, entry.value.role, clock, k), k.publicOf(g.privateKey), policy, clock, k)
            == entry
  {
    StripStrips(g.keyId);
    var e := SignedEnvelope(q, g, SigningEntry(g, policy, clock, k).value.role, clock, k);
    assert SealOk(e, k.publicOf(g.privateKey), k);
    assert At(e.statement.signedAt, clock) == g.now;
  }

  // ---------- the canonical order ----------

  function KeyId(e: Envelope): string { e.statement.keyId }

  function EnvelopeIds(es: seq<Envelope>): (r: seq<string>)
    ensures |r| == |es|
  {
    seq(|es|, i requires 0 <= i < |es| => KeyId(es[i]))
  }

  /** Before the first envelope with a greater key id, as a stable sort would. */
  function InsertEnvelope(e: Envelope, es: seq<Envelope>): seq<Envelope> {
    if es == [] || J.Before(KeyId(e), KeyId(es[0])) || KeyId(e) == KeyId(es[0]) then [e] + es
    else [es[0]] + InsertEnvelope(e, es[1..])
  }

  /** `normalized.sort(key=...)` */
  function SortedEnvelopes(es: seq<Envelope>): seq<Envelope> {
    if es == [] then [] else InsertEnvelope(es[0], SortedEnvelopes(es[1..]))
  }

  predicate InOrder(es: seq<Envelope>) {
    forall i, j :: 0 <= i < j < |es| ==> J.Before(KeyId(es[i]), KeyId(es[j]))
  }

  ghost predicate DistinctIds(es: seq<Envelope>) { Distinct(EnvelopeIds(es)) }

  lemma {:induction false} InsertPermutes(e: Envelope, es: seq<Envelope>)
    ensures multiset(InsertEnvelope(e, es)) == multiset([e] + es)
  {
    if es != [] && !(J.Before(KeyId(e), KeyId(es[0])) || KeyId(e) == KeyId(es[0])) {
      InsertPermutes(e, es[1..]);
      assert es == [es[0]] + es[1..];
    }
  }

  lemma {:induction false} SortPermutes(es: seq<Envelope>)
    ensures multiset(SortedEnvelopes(es)) == multiset(es)
  {
    if es != [] {
      SortPermutes(es[1..]);
      InsertPermutes(es[0], SortedEnvelopes(es[1..]));
      assert es == [es[0]] + es[1..];
    }
  }

  lemma FirstKeepsOrder(e: Envelope, es: seq<Envelope>)
    requires InOrder(es) && forall x :: x in es ==> J.Before(KeyId(e), KeyId(x))
    ensures InOrder([e] + es)
  {
  }

  lemma BeforeAll(e: Envelope, es: seq<Envelope>)
    requires InOrder(es) && es != [] && J.Before(KeyId(e), KeyId(es[0]))
    ensures forall x :: x in es ==> J.Before(KeyId(e), KeyId(x))
  {
    forall x | x in es ensures J.Before(KeyId(e), KeyId(x)) {
      var j :| 0 <= j < |es| && es[j] == x;
      if j > 0 { J.BeforeIsTransitive(KeyId(e), KeyId(es[0]), KeyId(x)); }
    }
  }

  lemma {:induction false} InsertOrders(e: Envelope, es: seq<Envelope>)
    requires InOrder(es) && forall x :: x in es ==> KeyId(x) != KeyId(e)
    ensures InOrder(InsertEnvelope(e, es))
  {
    if es == [] {
    } else if J.Before(KeyId(e), KeyId(es[0])) {
      BeforeAll(e, es);
      FirstKeepsOrder(e, es);
    } else {
      J.BeforeIsTotal(KeyId(e), KeyId(es[0]));
      var rest := InsertEnvelope(e, es[1..]);
      InsertOrders(e, es[1..]);
      InsertPermutes(e, es[1..]);
      RearrangedElements(rest, [e] + es[1..]);
      forall x | x in rest ensures J.Before(KeyId(es[0]), KeyId(x)) {
        assert x == e || x in es[1..];
      }
      FirstKeepsOrder(es[0], rest);
    }
  }

  lemma {:induction false} SortOrders(es: seq<Envelope>)
    requires DistinctIds(es)
    ensures InOrder(SortedEnvelopes(es))
  {
    if es != [] {
      assert EnvelopeIds(es)[1..] == EnvelopeIds(es[1..]);
      SortOrders(es[1..]);
      SortPermutes(es[1..]);
      RearrangedElements(SortedEnvelopes(es[1..]), es[1..]);
      forall x | x in SortedEnvelopes(es[1..]) ensures KeyId(x) != KeyId(es[0]) {
        var i :| 0 <= i < |es[1..]| && es[1..][i] == x;
        assert EnvelopeIds(es)[i + 1] == KeyId(x) && EnvelopeIds(es)[0] == KeyId(es[0]);
      }
      InsertOrders(es[0], SortedEnvelopes(es[1..]));
    }
  }

  lemma SmallestIsFirst(a: seq<Envelope>, b: seq<Envelope>)
    requires InOrder(a) && InOrder(b) && a != [] && b != [] && multiset(a) == multiset(b)
    ensures a[0] == b[0]
  {
    RearrangedElements(a, b);
    assert a[0] in b && b[0] in a;
    var i :| 0 <= i < |b| && b[i] == a[0];
    var j :| 0 <= j < |a| && a[j] == b[0];
    if i > 0 && j > 0 {
      J.BeforeIsStrict(KeyId(b[0]), KeyId(b[i]));
    }
  }

  /** There is one order only. */
  lemma {:induction false} OrderIsUnique(a: seq<Envelope>, b: seq<Envelope>)
    requires InOrder(a) && InOrder(b) && multiset(a) == multiset(b)
    ensures a == b
  {
    RearrangedElements(a, b);
    if a != [] {
      SmallestIsFirst(a, b);
      assert multiset(a[1..]) == multiset(a) - multiset{a[0]} by { assert a == [a[0]] + a[1..]; }
      assert multiset(b[1..]) == multiset(b) - multiset{b[0]} by { assert b == [b[0]] + b[1..]; }
      OrderIsUnique(a[1..], b[1..]);
    }
  }
}
