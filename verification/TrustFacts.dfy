/** What acceptance says of a trust policy, a signing request and a lineage checkpoint, in terms of the
    record alone. */
module TrustFacts {
  import opened Common
  import opened Strings
  import opened Permutations
  import opened ReleaseTrust
  import opened SigningRequests
  import C = ReleaseCertification
  import F = CanonicalForm
  import J = CanonicalJson
  import L = ReleaseLineage
  import M = ExecutionManifest

  /** Sixty-four hexadecimal digits in lower case. */
  predicate IsDigestText(s: string) { |s| == 64 && forall i :: 0 <= i < |s| ==> s[i] in "0123456789abcdef" }

  lemma DigestTextIs(s: string)
    ensures L.IsSha256(s) <==> IsDigestText(s)
  {
    forall i | 0 <= i < |s| ensures L.IsHexChar(s[i]) <==> s[i] in "0123456789abcdef" { HexCharIs(s[i]); }
  }

  lemma HexCharIs(c: char)
    ensures L.IsHexChar(c) <==> c in "0123456789abcdef"
  {
  }

  /** By its code in ASCII. */
  predicate InCapitals(c: char) { 65 <= c as int <= 90 }

  predicate InAlphabet(c: char) { 65 <= c as int <= 90 || 97 <= c as int <= 122 || 48 <= c as int <= 57 }

  /** Up to `most` characters: a letter or digit, then letters, digits and the marks of an identifier. */
  predicate IsIdText(s: string, most: nat) {
    1 <= |s| <= most && InAlphabet(s[0]) && forall i :: 1 <= i < |s| ==> InAlphabet(s[i]) || s[i] in "._:/@+-"
  }

  /** Two to sixty-four characters: a capital, then capitals, digits and underscores. */
  predicate IsRoleText(s: string) {
    2 <= |s| <= 64 && InCapitals(s[0]) && forall i :: 1 <= i < |s| ==> InCapitals(s[i]) || s[i] in "0123456789_"
  }

  lemma IdChars(c: char)
    ensures L.IsAlnum(c) <==> InAlphabet(c)
    ensures IsCapital(c) <==> InCapitals(c)
    ensures '0' <= c <= '9' || c == '_' <==> c in "0123456789_"
  {
  }

  lemma IdTextsAre(s: string)
    ensures (IsSafeId(s) <==> IsIdText(s, 128)) && (L.IsChannel(s) <==> IsIdText(s, 64)) && (IsRole(s) <==> IsRoleText(s))
  {
    forall i | 0 <= i < |s|
      ensures && (L.IsAlnum(s[i]) <==> InAlphabet(s[i])) && (IsCapital(s[i]) <==> InCapitals(s[i]))
              && ('0' <= s[i] <= '9' || s[i] == '_' <==> s[i] in "0123456789_")
    {
      IdChars(s[i]);
    }
  }

  // ---------- a policy ----------

  /** A key with an identity, a role, a fingerprint and a status, valid for some time and some releases. */
  ghost predicate IsEntry(e: KeyEntry, clock: Clock) {
    && IsIdText(e.keyId, 128) && IsRoleText(e.role) && IsDigestText(e.fingerprint) && e.status in {"ACTIVE", "REVOKED"}
    && Dated(e.notBefore, clock)
    && (e.notAfter.Some? ==> Dated(e.notAfter.value, clock) && At(e.notBefore, clock) < At(e.notAfter.value, clock))
    && 1 <= e.releaseMin && (e.releaseMax.Some? ==> e.releaseMin <= e.releaseMax.value)
  }

  lemma EntryIs(e: KeyEntry, clock: Clock)
    ensures EntryOk(e, clock) <==> IsEntry(e, clock)
  {
    DigestTextIs(e.fingerprint);
    IdTextsAre(e.keyId);
    IdTextsAre(e.role);
  }

  /** Two or more keys, no two with one id or one fingerprint. */
  ghost predicate AreKeys(keys: seq<KeyEntry>, clock: Clock) {
    && |keys| >= 2 && (forall i :: 0 <= i < |keys| ==> IsEntry(keys[i], clock))
    && forall i, j :: 0 <= i < j < |keys| ==> keys[i].keyId != keys[j].keyId && keys[i].fingerprint != keys[j].fingerprint
  }

  lemma KeysAre(keys: seq<KeyEntry>, clock: Clock)
    ensures KeysOk(keys, clock) <==> AreKeys(keys, clock)
  {
    NoRepeatsExactlyWhen(KeyIds(keys));
    NoRepeatsExactlyWhen(Fingerprints(keys));
    forall i | 0 <= i < |keys|
      ensures (EntryOk(keys[i], clock) <==> IsEntry(keys[i], clock)) && KeyIds(keys)[i] == keys[i].keyId
           && Fingerprints(keys)[i] == keys[i].fingerprint && keys[i] in keys
    {
      EntryIs(keys[i], clock);
    }
    if Distinct(KeyIds(keys)) && Distinct(Fingerprints(keys)) {
      forall i, j | 0 <= i < j < |keys| ensures keys[i].keyId != keys[j].keyId && keys[i].fingerprint != keys[j].fingerprint {
        assert KeyIds(keys)[i] != KeyIds(keys)[j] && Fingerprints(keys)[i] != Fingerprints(keys)[j];
      }
    }
  }

  /** At least two signatures in at least two different roles, each held by some key, and no more roles
      than signatures or signatures than keys. */
  ghost predicate IsQuorum(q: Quorum, keys: seq<KeyEntry>) {
    && 2 <= |q.roles| <= q.minimum <= |keys| && Distinct(q.roles)
    && forall i :: 0 <= i < |q.roles| ==> IsRoleText(q.roles[i]) && exists e :: e in keys && e.role == q.roles[i]
  }

  lemma QuorumIs(q: Quorum, keys: seq<KeyEntry>)
    ensures QuorumOk(q, keys) <==> IsQuorum(q, keys)
  {
    NoRepeatsExactlyWhen(q.roles);
    forall i | 0 <= i < |q.roles|
      ensures && q.roles[i] in q.roles && (IsRole(q.roles[i]) <==> IsRoleText(q.roles[i]))
              && (q.roles[i] in Roles(keys) <==> exists e :: e in keys && e.role == q.roles[i])
    {
      IdTextsAre(q.roles[i]);
    }
    assert Elements(q.roles) <= Roles(keys) <==> forall i :: 0 <= i < |q.roles| ==> q.roles[i] in Roles(keys);
  }

  /** A policy is accepted exactly when it has its formats, lists such keys, asks for such a quorum and
      bounds its ceremony so. */
  lemma PolicyAcceptedExactlyWhen(p: Policy, clock: Clock)
    ensures PolicyOk(p, clock) <==>
              && p.schemaVersion == 3 && p.algorithm == "Ed25519" && IsIdText(p.policyId, 128)
              && 1 <= |Strip(p.organization)| <= 128
              && AreKeys(p.keys, clock) && IsQuorum(p.quorum, p.keys)
              && 300 <= p.ceremony.ttl <= 86400 && 3600 <= p.ceremony.maxAge <= 604800 && 0 <= p.ceremony.skew <= 300
  {
    IdTextsAre(p.policyId);
    KeysAre(p.keys, clock);
    QuorumIs(p.quorum, p.keys);
  }

  // ---------- a request ----------

  /** The instant lies between creation and expiry, give or take the skew. */
  predicate IsOpenAt(q: RequestBody, now: int, clock: Clock) {
    && At(q.createdAt, clock) - 1_000_000 * q.ceremony.limits.skew <= now
    && now <= At(q.createdAt, clock) + 1_000_000 * (q.ceremony.limits.ttl + q.ceremony.limits.skew)
  }

  lemma BlockOpenExactlyWhen(q: RequestBody, policy: Policy, now: int, clock: Clock)
    ensures CeremonyBlockOk(q, policy, Some(now), clock) <==> CeremonyBlockOk(q, policy, None, clock) && IsOpenAt(q, now, clock)
  {
  }

  lemma FrameOpenExactlyWhen(q: Request, w: World, now: int)
    ensures FrameOk(q, w, Some(now)) <==> FrameOk(q, w, None) && IsOpenAt(q.body, now, w.clock)
  {
    if w.policy.Some? { BlockOpenExactlyWhen(q.body, w.policy.value, now, w.clock); }
  }

  /** A request is accepted as open at an instant exactly when it is accepted and the instant lies between
      creation and expiry, give or take the skew. */
  lemma OpenExactlyWhen(q: Request, bundle: C.Bundle, manifest: M.Manifest, w: World, now: int)
    ensures RequestOk(q, bundle, manifest, w, Some(now)) <==> RequestOk(q, bundle, manifest, w, None) && IsOpenAt(q.body, now, w.clock)
  {
    FrameOpenExactlyWhen(q, w, now);
  }

  /** Manifest, reports and bundle are dated and were made in this order, all before instant `t`, give or
      take the skew, and no report is too old at `t`. */
  ghost predicate IsTimely(bundle: C.Bundle, manifest: M.Manifest, limits: Ceremony, t: int, clock: Clock) {
    var made, bundled, skew := At(manifest.body.generatedAt, clock), At(bundle.body.generatedAt, clock), 1_000_000 * limits.skew;
    && bundle.body.inputs != [] && Dated(bundle.body.generatedAt, clock) && Dated(manifest.body.generatedAt, clock)
    && made <= t + skew && bundled <= t + skew
    && forall i :: 0 <= i < |bundle.body.inputs| ==> IsTimelyInput(bundle.body.inputs[i], made, bundled, limits, t, clock)
  }

  ghost predicate IsTimelyInput(item: C.Input, made: int, bundled: int, limits: Ceremony, t: int, clock: Clock) {
    var at, skew := At(item.generatedAt, clock), 1_000_000 * limits.skew;
    && Dated(item.generatedAt, clock) && made <= at + skew && at <= bundled + skew && at <= t + skew
    && t - at <= 1_000_000 * limits.maxAge + skew
  }

  lemma TimesBetween(inputs: seq<C.Input>, clock: Clock, low: int, high: int)
    requires inputs != []
    ensures var times := ReportTimes(inputs, clock);
            low <= Least(times) && Greatest(times) <= high
            <==> forall i :: 0 <= i < |inputs| ==> low <= At(inputs[i].generatedAt, clock) <= high
  {
    var times := ReportTimes(inputs, clock);
    forall i | 0 <= i < |inputs| ensures times[i] == At(inputs[i].generatedAt, clock) && times[i] in times {}
    var i :| 0 <= i < |times| && times[i] == Least(times);
    var j :| 0 <= j < |times| && times[j] == Greatest(times);
    assert Least(times) <= times[0] <= Greatest(times);
  }

  lemma SummaryIsDated(bundle: C.Bundle, manifest: M.Manifest, clock: Clock)
    ensures SummaryOk(bundle, manifest, clock) <==>
              && bundle.body.inputs != [] && Dated(bundle.body.generatedAt, clock) && Dated(manifest.body.generatedAt, clock)
              && forall i :: 0 <= i < |bundle.body.inputs| ==> Dated(bundle.body.inputs[i].generatedAt, clock)
  {
    forall i | 0 <= i < |bundle.body.inputs| ensures bundle.body.inputs[i] in bundle.body.inputs {}
  }

  lemma FreshIsBetween(bundle: C.Bundle, manifest: M.Manifest, limits: Ceremony, t: int, clock: Clock)
    requires ClockOk(clock) && SummaryOk(bundle, manifest, clock)
    ensures var times := ReportTimes(bundle.body.inputs, clock);
            var made, bundled := At(manifest.body.generatedAt, clock), At(bundle.body.generatedAt, clock);
            var skew, age := 1_000_000 * limits.skew, 1_000_000 * limits.maxAge;
            Fresh(CertificationOf(bundle, manifest, clock), limits, t, clock) <==>
              && Max(made - skew, t - age - skew) <= Least(times) && Greatest(times) <= Min(bundled + skew, t + skew)
              && made <= t + skew && bundled <= t + skew
  {
    var times := ReportTimes(bundle.body.inputs, clock);
    assert Least(times) <= times[0] <= Greatest(times);
  }

  /** The dates of the evidence are summarized and found fresh exactly when it is timely. */
  lemma TimelyExactlyWhen(bundle: C.Bundle, manifest: M.Manifest, limits: Ceremony, t: int, clock: Clock)
    requires ClockOk(clock)
    ensures IsTimely(bundle, manifest, limits, t, clock) <==>
            SummaryOk(bundle, manifest, clock) && Fresh(CertificationOf(bundle, manifest, clock), limits, t, clock)
  {
    SummaryIsDated(bundle, manifest, clock);
    if SummaryOk(bundle, manifest, clock) {
      var made, bundled := At(manifest.body.generatedAt, clock), At(bundle.body.generatedAt, clock);
      var skew, age := 1_000_000 * limits.skew, 1_000_000 * limits.maxAge;
      FreshIsBetween(bundle, manifest, limits, t, clock);
      TimesBetween(bundle.body.inputs, clock, Max(made - skew, t - age - skew), Min(bundled + skew, t + skew));
    }
  }

  /** The evidence of an accepted request was timely when the request was created, and the ceremony has a
      digest for its name. */
  lemma AcceptedRequestMeans(q: Request, bundle: C.Bundle, manifest: M.Manifest, w: World, open: Option<int>)
    requires ClockOk(w.clock) && RequestOk(q, bundle, manifest, w, open)
    ensures IsDigestText(q.body.ceremony.id) && Dated(q.body.createdAt, w.clock) && Dated(q.body.ceremony.expiresAt, w.clock)
    ensures IsTimely(bundle, manifest, q.body.ceremony.limits, At(q.body.createdAt, w.clock), w.clock)
  {
    DigestTextIs(q.body.ceremony.id);
    TimelyExactlyWhen(bundle, M.Returned(manifest), q.body.ceremony.limits, At(q.body.createdAt, w.clock), w.clock);
  }

  // ---------- a codename ----------

  lemma CodenameDigits(s: string)
    ensures L.ReleaseNumber(s).Some? <==> |s| >= 2 && s[0] == 'P' && F.IsNumeralText(s[1..])
    ensures L.ReleaseNumber(s).Some? ==> L.ReleaseNumber(s).value == J.ValueOf(s[1..])
  {
    if |s| >= 2 {
      var t := s[1..];
      assert t[0] == s[1];
      assert (forall i :: 2 <= i < |s| ==> J.IsDigit(s[i])) <==> forall i :: 1 <= i < |t| ==> J.IsDigit(t[i]) by {
        assert forall i :: 1 <= i < |t| ==> t[i] == s[i + 1];
        assert forall i :: 2 <= i < |s| ==> s[i] == t[i - 1];
      }
    }
  }

  /** The codename of release `n` is the letter P and the decimal of `n`, which is at least 1. */
  lemma CodenameExactlyWhen(s: string, n: nat)
    ensures L.ReleaseNumber(s) == Some(n) <==> n >= 1 && s == ['P'] + J.Decimal(n)
  {
    CodenameDigits(s);
    if L.ReleaseNumber(s).Some? {
      F.NumeralIsDecimal(s[1..]);
      assert s == ['P'] + s[1..];
    }
    if n >= 1 && s == ['P'] + J.Decimal(n) {
      assert s[1..] == J.Decimal(n);
      F.DecimalIsNumeral(n);
      J.DecimalReads(n);
    }
  }

  // ---------- a checkpoint ----------

  /** A verified checkpoint has the documented form, carries the hash of its other fields, and is the one
      of the channel and the head that were asked for. */
  lemma VerifiedCheckpointMeans(payload: L.Presented, channel: Option<string>, head: Option<string>, env: L.Env)
    requires L.Verifies(payload, channel, head, env)
    ensures payload.Some?
    ensures var c := payload.value;
            && c.schemaVersion in {J.Num(1), J.Bool(true)}
            && c.channel.Str? && IsIdText(c.channel.s, 64)
            && c.sequence.Num? && c.sequence.n >= 1 && (c.previous.Null? <==> c.sequence.n == 1)
            && c.release.Str? && L.ReleaseNumber(c.release.s).Some?
            && (c.releaseNumber == J.Num(L.NumberOf(c.release)) || (c.releaseNumber == J.Bool(true) && L.NumberOf(c.release) == 1))
            && c.artifact.Str? && IsDigestText(c.artifact.s) && c.attestation.Str? && IsDigestText(c.attestation.s)
            && (c.previous.Null? || (c.previous.Str? && IsDigestText(c.previous.s)))
            && c.publishedAt.Str? && env.timestampOk(c.publishedAt.s)
            && c.seal == J.Str(L.Fingerprint(c, env.h)) && IsDigestText(c.seal.s)
            && (channel.Some? ==> c.channel == J.Str(channel.value)) && (head.Some? ==> c.seal == J.Str(head.value))
  {
    var c := payload.value;
    IdTextsAre(c.channel.s);
    DigestTextIs(c.artifact.s);
    DigestTextIs(c.attestation.s);
    DigestTextIs(c.seal.s);
    if c.previous.Str? { DigestTextIs(c.previous.s); }
    if L.NumberOf(c.release) == 0 { L.ReleaseNumberIsPositive(c.release.s); }
  }
}
