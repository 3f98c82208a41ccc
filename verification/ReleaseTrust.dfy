/** The trust policy of an organization: who may sign a release, and how many must.

    Timestamps are texts; a clock says which instant, in microseconds, a text denotes and how an
    instant is written.  Entries are typed records, so their field-set checks are not modelled. */
module ReleaseTrust {
  import opened Common
  import opened Strings
  import opened Permutations
  import L = ReleaseLineage

  /** `fromisoformat` with an offset, in UTC, and `isoformat`. */
  datatype Clock = Clock(parse: string -> Option<int>, write: int -> string)

  ghost predicate ClockOk(clock: Clock) { forall t :: clock.parse(clock.write(t)) == Some(t) }

  const MICROS := 1_000_000

  datatype KeyEntry = KeyEntry(keyId: string, role: string, fingerprint: string, status: string,
                               notBefore: string, notAfter: Option<string>, releaseMin: int, releaseMax: Option<int>)
  datatype Quorum = Quorum(minimum: int, roles: seq<string>)
  datatype Ceremony = Ceremony(ttl: int, maxAge: int, skew: int)
  datatype Policy = Policy(schemaVersion: int, policyId: string, organization: string, algorithm: string,
                           quorum: Quorum, ceremony: Ceremony, keys: seq<KeyEntry>)
  datatype Signer = Signer(keyId: string, fingerprint: string)

  // ---------- formats ----------

  predicate IsSafeId(s: string) {
    && 1 <= |s| <= 128 && L.IsAlnum(s[0])
    && forall i :: 1 <= i < |s| ==> L.IsAlnum(s[i]) || s[i] in "._:/@+-"
  }

  predicate IsCapital(c: char) { 'A' <= c <= 'Z' }

  predicate IsRole(s: string) {
    && 2 <= |s| <= 64 && IsCapital(s[0])
    && forall i :: 1 <= i < |s| ==> IsCapital(s[i]) || '0' <= s[i] <= '9' || s[i] == '_'
  }

  // ---------- the policy ----------

  /** `_validate_key_entry` */
  predicate EntryOk(e: KeyEntry, clock: Clock) {
    && IsSafeId(e.keyId) && IsRole(e.role) && L.IsSha256(e.fingerprint)
    && (e.status == "ACTIVE" || e.status == "REVOKED")
    && clock.parse(e.notBefore).Some?
    && (e.notAfter.Some? ==>
          clock.parse(e.notAfter.value).Some? && clock.parse(e.notBefore).value < clock.parse(e.notAfter.value).value)
    && e.releaseMin >= 1 && (e.releaseMax.Some? ==> e.releaseMin <= e.releaseMax.value)
  }

  function KeyIds(keys: seq<KeyEntry>): seq<string> {
    seq(|keys|, i requires 0 <= i < |keys| => keys[i].keyId)
  }

  function Fingerprints(keys: seq<KeyEntry>): seq<string> {
    seq(|keys|, i requires 0 <= i < |keys| => keys[i].fingerprint)
  }

  function Roles(keys: seq<KeyEntry>): set<string> { set e | e in keys :: e.role }

  /** `_validate_quorum` */
  predicate QuorumOk(q: Quorum, keys: seq<KeyEntry>) {
    && 2 <= q.minimum <= |keys|
    && |q.roles| >= 2 && (forall r :: r in q.roles ==> IsRole(r)) && NoRepeats(q.roles)
    && |q.roles| <= q.minimum && Elements(q.roles) <= Roles(keys)
  }

  /** `_validate_ceremony` */
  predicate CeremonyOk(c: Ceremony) {
    300 <= c.ttl <= 86400 && 3600 <= c.maxAge <= 604800 && 0 <= c.skew <= 300
  }

  /** `verify_trust_policy` */
  predicate PolicyOk(p: Policy, clock: Clock) {
    && p.schemaVersion == 3 && IsSafeId(p.policyId) && 1 <= |Strip(p.organization)| <= 128 && p.algorithm == "Ed25519"
    && KeysOk(p.keys, clock)
    && QuorumOk(p.quorum, p.keys) && CeremonyOk(p.ceremony)
  }

  predicate KeysOk(keys: seq<KeyEntry>, clock: Clock) {
    && |keys| >= 2 && (forall e :: e in keys ==> EntryOk(e, clock))
    && NoRepeats(KeyIds(keys)) && NoRepeats(Fingerprints(keys))
  }

  // ---------- one signer ----------

  function FindKey(keys: seq<KeyEntry>, keyId: string): Option<KeyEntry> {
    if keys == [] then None else if keys[0].keyId == keyId then Some(keys[0]) else FindKey(keys[1..], keyId)
  }

  /** The entry may sign release `number` at instant `t` with this public key. */
  predicate Entitles(e: KeyEntry, fingerprint: string, number: int, t: int, clock: Clock) {
    && e.fingerprint == fingerprint && e.status == "ACTIVE"
    && clock.parse(e.notBefore).Some? && clock.parse(e.notBefore).value <= t
    && (e.notAfter.Some? ==> clock.parse(e.notAfter.value).Some? && t <= clock.parse(e.notAfter.value).value)
    && e.releaseMin <= number && (e.releaseMax.Some? ==> number <= e.releaseMax.value)
  }

  /** `require_authorized_signer`; `None` stands for its error. */
  function Authorize(p: Policy, s: Signer, release: string, signedAt: string, clock: Clock): Option<KeyEntry> {
    var number, t, entry := L.ReleaseNumber(release), clock.parse(signedAt), FindKey(p.keys, s.keyId);
    if PolicyOk(p, clock) && number.Some? && t.Some? && entry.Some?
       && Entitles(entry.value, s.fingerprint, number.value, t.value, clock)
    then entry else None
  }

  lemma {:induction false} FoundKeys(keys: seq<KeyEntry>, keyId: string)
    ensures FindKey(keys, keyId).Some? ==> FindKey(keys, keyId).value in keys && FindKey(keys, keyId).value.keyId == keyId
    ensures FindKey(keys, keyId).None? ==> forall e :: e in keys ==> e.keyId != keyId
  {
    if keys != [] {
      FoundKeys(keys[1..], keyId);
      assert forall e :: e in keys <==> e == keys[0] || e in keys[1..];
    }
  }

  /** In a verified policy an entry is determined by its key id, and by its fingerprint. */
  lemma KeysAreUnique(p: Policy, clock: Clock, a: KeyEntry, b: KeyEntry)
    requires PolicyOk(p, clock) && a in p.keys && b in p.keys
    requires a.keyId == b.keyId || a.fingerprint == b.fingerprint
    ensures a == b
  {
    NoRepeatsExactlyWhen(KeyIds(p.keys));
    NoRepeatsExactlyWhen(Fingerprints(p.keys));
    var i :| 0 <= i < |p.keys| && p.keys[i] == a;
    var j :| 0 <= j < |p.keys| && p.keys[j] == b;
    assert KeyIds(p.keys)[i] == a.keyId && KeyIds(p.keys)[j] == b.keyId;
    assert Fingerprints(p.keys)[i] == a.fingerprint && Fingerprints(p.keys)[j] == b.fingerprint;
  }

  /** A signer is authorized exactly when some entry with that key id entitles it; the search
      stopping at the first such entry loses nothing. */
  lemma AuthorizedExactlyWhen(p: Policy, s: Signer, release: string, signedAt: string, clock: Clock, e: KeyEntry)
    requires PolicyOk(p, clock)
    ensures Authorize(p, s, release, signedAt, clock) == Some(e)
       <==> && L.ReleaseNumber(release).Some? && clock.parse(signedAt).Some?
            && e in p.keys && e.keyId == s.keyId
            && Entitles(e, s.fingerprint, L.ReleaseNumber(release).value, clock.parse(signedAt).value, clock)
  {
    FoundKeys(p.keys, s.keyId);
    if e in p.keys && e.keyId == s.keyId {
      KeysAreUnique(p, clock, e, FindKey(p.keys, s.keyId).value);
    }
  }

  /** Different authorized key ids have different fingerprints. */
  lemma FingerprintsFollowKeyIds(p: Policy, a: Signer, b: Signer, release: string, atA: string, atB: string, clock: Clock)
    requires Authorize(p, a, release, atA, clock).Some? && Authorize(p, b, release, atB, clock).Some?
    ensures a.fingerprint == b.fingerprint <==> a.keyId == b.keyId
  {
    FoundKeys(p.keys, a.keyId);
    FoundKeys(p.keys, b.keyId);
    var x, y := FindKey(p.keys, a.keyId).value, FindKey(p.keys, b.keyId).value;
    if x.fingerprint == y.fingerprint {
      KeysAreUnique(p, clock, x, y);
    }
  }

  // ---------- a quorum ----------

  function SignerIds(signers: seq<Signer>): seq<string> {
    seq(|signers|, i requires 0 <= i < |signers| => signers[i].keyId)
  }

  function SignerFingerprints(signers: seq<Signer>): seq<string> {
    seq(|signers|, i requires 0 <= i < |signers| => signers[i].fingerprint)
  }

  function RolesOf(p: Policy, signers: seq<Signer>): set<string> {
    set s | s in signers && FindKey(p.keys, s.keyId).Some? :: FindKey(p.keys, s.keyId).value.role
  }

  /** `require_authorized_quorum` returns rather than raises. */
  predicate QuorumMet(p: Policy, signers: seq<Signer>, release: string, signedAt: string, clock: Clock) {
    && PolicyOk(p, clock)
    && NoRepeats(SignerIds(signers)) && NoRepeats(SignerFingerprints(signers))
    && (forall s :: s in signers ==> Authorize(p, s, release, signedAt, clock).Some?)
    && p.quorum.minimum <= |signers|
    && Elements(p.quorum.roles) <= RolesOf(p, signers)
  }

  /** The check of fingerprints never decides: distinct authorized key ids suffice. */
  lemma QuorumMetExactlyWhen(p: Policy, signers: seq<Signer>, release: string, signedAt: string, clock: Clock)
    ensures QuorumMet(p, signers, release, signedAt, clock)
       <==> && PolicyOk(p, clock) && Distinct(SignerIds(signers))
            && (forall s :: s in signers ==> Authorize(p, s, release, signedAt, clock).Some?)
            && p.quorum.minimum <= |signers|
            && Elements(p.quorum.roles) <= RolesOf(p, signers)
  {
    NoRepeatsExactlyWhen(SignerIds(signers));
    NoRepeatsExactlyWhen(SignerFingerprints(signers));
    if PolicyOk(p, clock) && Distinct(SignerIds(signers))
       && (forall s :: s in signers ==> Authorize(p, s, release, signedAt, clock).Some?)
    {
      forall i, j | 0 <= i < j < |signers| ensures signers[i].fingerprint != signers[j].fingerprint {
        assert SignerIds(signers)[i] != SignerIds(signers)[j];
        assert signers[i] in signers && signers[j] in signers;
        FingerprintsFollowKeyIds(p, signers[i], signers[j], release, signedAt, signedAt, clock);
      }
    }
  }
}
