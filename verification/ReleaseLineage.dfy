/** The hash-linked, anti-rollback lineage of published releases.

    Checkpoints and attestations are JSON values, verified field by field as the code does.
    What a run assumes is the operating discipline: the trusted head is one register, every
    advance names it, and genesis is allowed only while it is empty.  Everything else a caller
    supplies, the presented previous checkpoint included, is arbitrary. */
module ReleaseLineage {
  import opened Common
  import opened CanonicalJson
  import opened Certification

  /** SHA-256, and which texts parse as ISO-8601 timestamps with an offset. */
  datatype Env = Env(h: Hash, timestampOk: string -> bool)

  // ---------- formats ----------

  predicate IsHexChar(c: char) { '0' <= c <= '9' || 'a' <= c <= 'f' }

  predicate IsSha256(s: string) { |s| == 64 && forall i :: 0 <= i < |s| ==> IsHexChar(s[i]) }

  predicate IsAlnum(c: char) { 'A' <= c <= 'Z' || 'a' <= c <= 'z' || '0' <= c <= '9' }

  predicate IsChannel(s: string) {
    && 1 <= |s| <= 64 && IsAlnum(s[0])
    && forall i :: 1 <= i < |s| ==> IsAlnum(s[i]) || s[i] in "._:/@+-"
  }

  /** `P` and a positive decimal number without leading zero. */
  function ReleaseNumber(s: string): Option<nat> {
    if |s| >= 2 && s[0] == 'P' && '1' <= s[1] <= '9' && (forall i :: 2 <= i < |s| ==> IsDigit(s[i]))
    then Some(ValueOf(s[1..])) else None
  }

  /** Python's `v == n` for a JSON value: booleans count as 0 and 1. */
  predicate EqualsInt(v: Json, n: int) {
    match v
    case Num(m) => m == n
    case Bool(b) => n == if b then 1 else 0
    case _ => false
  }

  // ---------- a checkpoint ----------

  /** An object with exactly the ten documented fields; their values may be anything. */
  datatype Checkpoint = Checkpoint(schemaVersion: Json, channel: Json, sequence: Json, release: Json,
                                   releaseNumber: Json, artifact: Json, attestation: Json, previous: Json,
                                   publishedAt: Json, seal: Json)

  /** A payload: such an object, or anything else. */
  type Presented = Option<Checkpoint>

  function StrOf(v: Json): string { if v.Str? then v.s else "" }

  function NumOf(v: Json): int { if v.Num? then v.n else 0 }

  predicate IsRelease(v: Json) { v.Str? && ReleaseNumber(v.s).Some? }

  function NumberOf(v: Json): nat { if IsRelease(v) then ReleaseNumber(v.s).value else 0 }

  predicate IsHashText(v: Json) { v.Str? && IsSha256(v.s) }

  /** The object without its seal, which is what the seal hashes. */
  function BodyOf(c: Checkpoint): Payload {
    map["schema_version" := c.schemaVersion, "channel" := c.channel, "sequence" := c.sequence,
        "release" := c.release, "release_number" := c.releaseNumber, "artifact_sha256" := c.artifact,
        "attestation_sha256" := c.attestation, "previous_checkpoint_sha256" := c.previous,
        "published_at" := c.publishedAt]
  }

  /** `checkpoint_fingerprint` */
  ghost function Fingerprint(c: Checkpoint, h: Hash): string { h(CheckpointText(c)) }

  ghost function CheckpointText(c: Checkpoint): string { Text(Obj(BodyOf(c))) }

  predicate WellFormed(c: Checkpoint, env: Env) {
    && EqualsInt(c.schemaVersion, 1)
    && c.channel.Str? && IsChannel(c.channel.s)
    && c.sequence.Num? && c.sequence.n >= 1
    && IsRelease(c.release) && EqualsInt(c.releaseNumber, NumberOf(c.release))
    && IsHashText(c.artifact) && IsHashText(c.attestation)
    && (if c.sequence.n == 1 then c.previous.Null? else IsHashText(c.previous))
    && c.publishedAt.Str? && env.timestampOk(c.publishedAt.s)
    && IsHashText(c.seal)
  }

  /** `verify_lineage_checkpoint` returns rather than raises. */
  ghost predicate Verifies(payload: Presented, channel: Option<string>, head: Option<string>, env: Env) {
    && payload.Some? && WellFormed(payload.value, env)
    && (channel.Some? ==> payload.value.channel == Str(channel.value))
    && payload.value.seal == Str(Fingerprint(payload.value, env.h))
    && (head.Some? ==> IsSha256(head.value) && payload.value.seal == Str(head.value))
  }

  ghost function AttestationHash(a: Payload, h: Hash): string { h(AttestationText(a)) }

  ghost function AttestationText(a: Payload): string { Text(Obj(a)) }

  function ReleaseOf(a: Payload): Json { if "release" in a then a["release"] else Null }

  // ---------- advancing ----------

  /** One call of `advance_release_lineage`: `valid` is what `verify_release_attestation` said,
      `artifact` the digest of the artifact file, `now` the time of publication. */
  datatype Request = Request(channel: string, attestation: Payload, valid: bool, artifact: string,
                             now: string, presented: Option<Presented>)

  ghost function Sealed(q: Request, sequence: int, previous: Json, h: Hash): Checkpoint {
    var body := Checkpoint(Num(1), Str(q.channel), Num(sequence), ReleaseOf(q.attestation),
                           Num(NumberOf(ReleaseOf(q.attestation))), Str(q.artifact),
                           Str(AttestationHash(q.attestation, h)), previous, Str(q.now), Null);
    body.(seal := Str(Fingerprint(body, h)))
  }

  /** `advance_release_lineage`; `None` stands for its `ReleaseLineageError`. */
  ghost function Advance(q: Request, expected: Option<string>, allowGenesis: bool, env: Env): Option<Checkpoint> {
    if !IsChannel(q.channel) || !q.valid || !IsRelease(ReleaseOf(q.attestation)) then None
    else if q.presented.None? then
      if !allowGenesis || expected.Some? then None
      else Some(Sealed(q, 1, Null, env.h))
    else if expected.None? || !Verifies(q.presented.value, Some(q.channel), expected, env) then None
    else
      var previous := q.presented.value.value;
      if NumberOf(ReleaseOf(q.attestation)) <= NumberOf(previous.release) then None
      else Some(Sealed(q, previous.sequence.n + 1, previous.seal, env.h))
  }

  /** `verify_release_against_lineage` for the attestation and artifact of `q`. */
  ghost predicate MatchesLineage(checkpoint: Presented, head: string, q: Request, minimum: Option<int>, env: Env) {
    && Verifies(checkpoint, Some(q.channel), Some(head), env)
    && q.valid
    && ReleaseOf(q.attestation) == checkpoint.value.release
    && (minimum.Some? ==> 1 <= minimum.value <= NumberOf(checkpoint.value.release))
    && checkpoint.value.artifact == Str(q.artifact)
    && checkpoint.value.attestation == Str(AttestationHash(q.attestation, env.h))
  }

  // ---------- runs over the register ----------

  /** A published checkpoint and the request that led to it. */
  datatype Link = Link(checkpoint: Checkpoint, request: Request)

  function HeadHash(chain: seq<Link>): Option<string> {
    if chain == [] then None else Some(StrOf(chain[|chain| - 1].checkpoint.seal))
  }

  /** A refused request leaves the register as it is. */
  ghost function Publish(chain: seq<Link>, q: Request, env: Env): seq<Link> {
    var r := Advance(q, HeadHash(chain), chain == [], env);
    if r.None? then chain else chain + [Link(r.value, q)]
  }

  ghost function Lineage(requests: seq<Request>, env: Env): seq<Link> {
    if requests == [] then []
    else Publish(Lineage(requests[..|requests| - 1], env), requests[|requests| - 1], env)
  }

  /** Digests are lowercase SHA-256 texts. */
  ghost predicate EnvOk(env: Env) { forall x :: IsSha256(env.h(x)) }

  /** Artifacts are hashed, and publication times written, by the tool itself. */
  ghost predicate RequestsOk(requests: seq<Request>, env: Env) {
    forall i :: 0 <= i < |requests| ==> IsSha256(requests[i].artifact) && env.timestampOk(requests[i].now)
  }

  // ---------- one checkpoint ----------

  lemma SealedVerifies(q: Request, sequence: int, previous: Json, env: Env)
    requires EnvOk(env) && IsSha256(q.artifact) && env.timestampOk(q.now) && IsChannel(q.channel)
    requires IsRelease(ReleaseOf(q.attestation))
    requires sequence >= 1 && (if sequence == 1 then previous.Null? else IsHashText(previous))
    ensures var c := Sealed(q, sequence, previous, env.h);
            Verifies(Some(c), Some(q.channel), Some(StrOf(c.seal)), env)
  {
    var c := Sealed(q, sequence, previous, env.h);
    assert BodyOf(c) == BodyOf(c.(seal := Null));
  }

  lemma BodyBindsFields(a: Checkpoint, b: Checkpoint)
    requires BodyOf(a) == BodyOf(b)
    ensures a.(seal := b.seal) == b
  {
    var x, y := BodyOf(a), BodyOf(b);
    assert x["schema_version"] == y["schema_version"] && x["channel"] == y["channel"];
    assert x["sequence"] == y["sequence"] && x["release"] == y["release"];
    assert x["release_number"] == y["release_number"] && x["artifact_sha256"] == y["artifact_sha256"];
    assert x["attestation_sha256"] == y["attestation_sha256"] && x["published_at"] == y["published_at"];
    assert x["previous_checkpoint_sha256"] == y["previous_checkpoint_sha256"];
  }

  /** Two verified checkpoints with one seal are the same checkpoint. */
  lemma SealBindsCheckpoint(a: Checkpoint, b: Checkpoint, h: Hash)
    requires a.seal == b.seal == Str(Fingerprint(a, h)) == Str(Fingerprint(b, h))
    ensures a == b || Clash(h, CheckpointText(a), CheckpointText(b))
  {
    SameHash(h, Obj(BodyOf(a)), Obj(BodyOf(b)));
    if BodyOf(a) == BodyOf(b) {
      BodyBindsFields(a, b);
    }
  }

  // ---------- what every run keeps ----------

  /** The last link verifies under its own channel and hash, and follows the chain before it. */
  ghost predicate LinkOk(chain: seq<Link>, n: nat, env: Env)
    requires n < |chain|
  {
    var c, q := chain[n].checkpoint, chain[n].request;
    && Verifies(Some(c), Some(q.channel), Some(StrOf(c.seal)), env)
    && q.valid && c.release == ReleaseOf(q.attestation)
    && c.attestation == Str(AttestationHash(q.attestation, env.h)) && c.artifact == Str(q.artifact)
    && c.sequence == Num(n + 1)
    && (n > 0 ==>
          && c.previous == chain[n - 1].checkpoint.seal
          && c.channel == chain[n - 1].checkpoint.channel
          && NumberOf(chain[n - 1].checkpoint.release) < NumberOf(c.release))
  }

  ghost predicate ChainOk(chain: seq<Link>, env: Env) {
    forall n :: 0 <= n < |chain| ==> LinkOk(chain, n, env)
  }

  lemma GenesisLinkOk(q: Request, env: Env)
    requires EnvOk(env) && IsSha256(q.artifact) && env.timestampOk(q.now) && Advance(q, None, true, env).Some?
    ensures LinkOk([Link(Advance(q, None, true, env).value, q)], 0, env)
  {
    SealedVerifies(q, 1, Null, env);
  }

  /** The request presents, instead of the head, another checkpoint with the head's hash. */
  ghost predicate Forges(chain: seq<Link>, q: Request, env: Env) {
    && chain != [] && q.presented.Some? && q.presented.value.Some?
    && Clash(env.h, CheckpointText(q.presented.value.value), CheckpointText(chain[|chain| - 1].checkpoint))
  }

  /** Some request of the run does so when its turn comes. */
  ghost predicate SomeForges(requests: seq<Request>, env: Env) {
    exists n :: 0 <= n < |requests| && Forges(Lineage(requests[..n], env), requests[n], env)
  }

  lemma NextLinkOk(chain: seq<Link>, q: Request, env: Env)
    requires EnvOk(env) && IsSha256(q.artifact) && env.timestampOk(q.now)
    requires chain != [] && LinkOk(chain, |chain| - 1, env) && Advance(q, HeadHash(chain), false, env).Some?
    ensures LinkOk(chain + [Link(Advance(q, HeadHash(chain), false, env).value, q)], |chain|, env)
         || Forges(chain, q, env)
  {
    var head, previous := chain[|chain| - 1].checkpoint, q.presented.value.value;
    SealBindsCheckpoint(previous, head, env.h);
    if previous == head {
      SealedVerifies(q, |chain| + 1, head.seal, env);
    }
  }

  lemma AppendKeepsChain(chain: seq<Link>, link: Link, env: Env)
    requires ChainOk(chain, env) && LinkOk(chain + [link], |chain|, env)
    ensures ChainOk(chain + [link], env)
  {
    forall i | 0 <= i < |chain| ensures LinkOk(chain + [link], i, env) { assert LinkOk(chain, i, env); }
  }

  lemma PublishKeepsChain(chain: seq<Link>, q: Request, env: Env)
    requires EnvOk(env) && IsSha256(q.artifact) && env.timestampOk(q.now) && ChainOk(chain, env)
    ensures ChainOk(Publish(chain, q, env), env) || Forges(chain, q, env)
  {
    var r := Advance(q, HeadHash(chain), chain == [], env);
    if r.Some? && !Forges(chain, q, env) {
      if chain == [] {
        GenesisLinkOk(q, env);
        assert chain + [Link(r.value, q)] == [Link(r.value, q)];
      } else {
        assert LinkOk(chain, |chain| - 1, env);
        NextLinkOk(chain, q, env);
      }
      AppendKeepsChain(chain, Link(r.value, q), env);
    }
  }

  lemma ForgedPrefix(requests: seq<Request>, m: nat, env: Env)
    requires m <= |requests| && SomeForges(requests[..m], env)
    ensures SomeForges(requests, env)
  {
    var n :| 0 <= n < m && Forges(Lineage(requests[..m][..n], env), requests[..m][n], env);
    assert requests[..m][..n] == requests[..n];
  }

  lemma LastForges(requests: seq<Request>, env: Env)
    requires requests != [] && Forges(Lineage(requests[..|requests| - 1], env), requests[|requests| - 1], env)
    ensures SomeForges(requests, env)
  {
  }

  /** In every run of arbitrary requests each published head verifies, its sequence is its place
      in the chain, it names its predecessor, stays on one channel and raises the release number;
      unless some request forges the hash of the head it names. */
  lemma {:induction false} EveryRunKeepsChain(requests: seq<Request>, env: Env)
    requires EnvOk(env) && RequestsOk(requests, env)
    ensures ChainOk(Lineage(requests, env), env) || SomeForges(requests, env)
  {
    if requests != [] {
      var init, last := requests[..|requests| - 1], requests[|requests| - 1];
      EveryRunKeepsChain(init, env);
      if SomeForges(init, env) {
        ForgedPrefix(requests, |requests| - 1, env);
      } else {
        PublishKeepsChain(Lineage(init, env), last, env);
        if Forges(Lineage(init, env), last, env) { LastForges(requests, env); }
      }
    }
  }

  /** The part of a link that chains it to the one before. */
  ghost predicate LinkedAt(chain: seq<Link>, n: nat, h: Hash)
    requires n < |chain|
  {
    var c := chain[n].checkpoint;
    && c.seal == Str(Fingerprint(c, h)) && c.sequence == Num(n + 1) && NumberOf(c.release) >= 1
    && (n > 0 ==> c.previous == chain[n - 1].checkpoint.seal)
    && (n > 0 ==> NumberOf(chain[n - 1].checkpoint.release) < NumberOf(c.release))
  }

  ghost predicate Linked(chain: seq<Link>, h: Hash) {
    forall n :: 0 <= n < |chain| ==> LinkedAt(chain, n, h)
  }

  lemma ReleaseNumberIsPositive(s: string)
    requires ReleaseNumber(s).Some?
    ensures ReleaseNumber(s).value >= 1
  {
    LeadingDigitCounts(s[1..]);
  }

  lemma {:induction false} LeadingDigitCounts(t: string)
    requires t != "" && '1' <= t[0] <= '9'
    ensures ValueOf(t) >= 1
  {
    if |t| == 1 {
      assert t[..0] == "";
    } else {
      LeadingDigitCounts(t[..|t| - 1]);
    }
  }

  lemma ChainIsLinked(chain: seq<Link>, env: Env)
    requires ChainOk(chain, env)
    ensures Linked(chain, env.h)
  {
    forall n | 0 <= n < |chain| ensures LinkedAt(chain, n, env.h) {
      assert LinkOk(chain, n, env);
      ReleaseNumberIsPositive(chain[n].checkpoint.release.s);
    }
  }

  /** Release numbers rise strictly along a chain. */
  lemma {:induction false} NumbersRise(chain: seq<Link>, h: Hash, m: nat, n: nat)
    requires Linked(chain, h) && m < n < |chain|
    ensures NumberOf(chain[m].checkpoint.release) < NumberOf(chain[n].checkpoint.release)
  {
    assert LinkedAt(chain, n, h);
    if m < n - 1 {
      NumbersRise(chain, h, m, n - 1);
    }
  }

  /** A sequence is a place in the chain and never exceeds its release number. */
  lemma {:induction false} SequenceAtMostNumber(chain: seq<Link>, h: Hash, n: nat)
    requires Linked(chain, h) && n < |chain|
    ensures NumOf(chain[n].checkpoint.sequence) == n + 1 <= NumberOf(chain[n].checkpoint.release)
  {
    assert LinkedAt(chain, n, h);
    if n > 0 {
      SequenceAtMostNumber(chain, h, n - 1);
    }
  }

  function Checkpoints(chain: seq<Link>): seq<Checkpoint> {
    seq(|chain|, i requires 0 <= i < |chain| => chain[i].checkpoint)
  }

  lemma SameHead(a: seq<Link>, b: seq<Link>, h: Hash)
    requires Linked(a, h) && Linked(b, h) && a != [] && b != [] && HeadHash(a) == HeadHash(b)
    requires !Clash(h, CheckpointText(a[|a| - 1].checkpoint), CheckpointText(b[|b| - 1].checkpoint))
    ensures a[|a| - 1].checkpoint == b[|b| - 1].checkpoint && |a| == |b|
  {
    assert LinkedAt(a, |a| - 1, h) && LinkedAt(b, |b| - 1, h);
    SealBindsCheckpoint(a[|a| - 1].checkpoint, b[|b| - 1].checkpoint, h);
  }

  lemma PreviousHead(a: seq<Link>, h: Hash)
    requires Linked(a, h) && a != []
    ensures |a| > 1 ==> HeadHash(a[..|a| - 1]) == Some(StrOf(a[|a| - 1].checkpoint.previous))
    ensures |a| == 1 ==> HeadHash(a[..|a| - 1]) == HeadHash([])
  {
    assert LinkedAt(a, |a| - 1, h);
    assert |a| == 1 ==> a[..|a| - 1] == [];
  }

  /** Some checkpoint of one chain and some other checkpoint of the other have one hash. */
  ghost predicate ChainsClash(a: seq<Link>, b: seq<Link>, h: Hash) {
    exists i, j :: 0 <= i < |a| && 0 <= j < |b| && Clash(h, CheckpointText(a[i].checkpoint), CheckpointText(b[j].checkpoint))
  }

  lemma ClashOfPrefixes(a: seq<Link>, b: seq<Link>, h: Hash, m: nat)
    requires m <= |a| && m <= |b|
    ensures ChainsClash(a[..m], b[..m], h) ==> ChainsClash(a, b, h)
  {
    if ChainsClash(a[..m], b[..m], h) {
      var i, j :| 0 <= i < m && 0 <= j < m
               && Clash(h, CheckpointText(a[..m][i].checkpoint), CheckpointText(b[..m][j].checkpoint));
      assert a[..m][i] == a[i] && b[..m][j] == b[j];
    }
  }

  /** The head hash determines the whole history. */
  lemma {:induction false} HeadDeterminesHistory(a: seq<Link>, b: seq<Link>, h: Hash)
    requires Linked(a, h) && Linked(b, h) && HeadHash(a) == HeadHash(b)
    ensures Checkpoints(a) == Checkpoints(b) || ChainsClash(a, b, h)
    decreases |a|
  {
    if a != [] && !ChainsClash(a, b, h) {
      SameHead(a, b, h);
      var m := |a| - 1;
      PrefixIsLinked(a, h, m);
      PrefixIsLinked(b, h, m);
      PreviousHead(a, h);
      PreviousHead(b, h);
      HeadDeterminesHistory(a[..m], b[..m], h);
      ClashOfPrefixes(a, b, h, m);
      assert Checkpoints(a) == Checkpoints(a[..m]) + [a[m].checkpoint];
      assert Checkpoints(b) == Checkpoints(b[..m]) + [b[m].checkpoint];
    }
  }

  lemma PrefixIsLinked(chain: seq<Link>, h: Hash, m: nat)
    requires Linked(chain, h) && m <= |chain|
    ensures Linked(chain[..m], h)
  {
    forall n | 0 <= n < m ensures LinkedAt(chain[..m], n, h) { assert LinkedAt(chain, n, h); }
  }

  /** Only the head itself verifies under the head's hash. */
  lemma OnlyTheHeadVerifies(chain: seq<Link>, payload: Presented, channel: Option<string>, env: Env)
    requires chain != [] && LinkedAt(chain, |chain| - 1, env.h)
    requires Verifies(payload, channel, HeadHash(chain), env)
    ensures || payload == Some(chain[|chain| - 1].checkpoint)
            || Clash(env.h, CheckpointText(payload.value), CheckpointText(chain[|chain| - 1].checkpoint))
  {
    SealBindsCheckpoint(payload.value, chain[|chain| - 1].checkpoint, env.h);
  }

  /** Anti-rollback: against the current head, every attestation published before it is refused,
      whatever checkpoint, artifact and minimum are presented with it, short of a forged head. */
  lemma OlderReleasesAreRefused(chain: seq<Link>, env: Env, m: nat, q: Request, checkpoint: Presented, minimum: Option<int>)
    requires ChainOk(chain, env) && m < |chain| - 1
    requires q.attestation == chain[m].request.attestation
    ensures MatchesLineage(checkpoint, HeadHash(chain).value, q, minimum, env) ==>
              Clash(env.h, CheckpointText(checkpoint.value), CheckpointText(chain[|chain| - 1].checkpoint))
  {
    var head := chain[|chain| - 1].checkpoint;
    ChainIsLinked(chain, env);
    NumbersRise(chain, env.h, m, |chain| - 1);
    LinkCarriesRelease(chain, env, m);
    if Verifies(checkpoint, Some(q.channel), HeadHash(chain), env) {
      assert LinkedAt(chain, |chain| - 1, env.h);
      OnlyTheHeadVerifies(chain, checkpoint, Some(q.channel), env);
      assert head.release != ReleaseOf(q.attestation);
    }
  }

  lemma LinkCarriesRelease(chain: seq<Link>, env: Env, m: nat)
    requires ChainOk(chain, env) && m < |chain|
    ensures chain[m].checkpoint.release == ReleaseOf(chain[m].request.attestation)
  {
    assert LinkOk(chain, m, env);
  }

  /** Against the head only the attestation and artifact it published are accepted, and they are, unless
      the caller asks for a later release. */
  lemma HeadAcceptsExactlyItsRelease(chain: seq<Link>, env: Env, q: Request, minimum: Option<int>, head: Link)
    requires ChainOk(chain, env) && chain != [] && head == chain[|chain| - 1]
    requires !Clash(env.h, AttestationText(q.attestation), AttestationText(head.request.attestation))
    requires q.valid && q.channel == head.request.channel
    ensures MatchesLineage(Some(head.checkpoint), HeadHash(chain).value, q, minimum, env)
       <==> && q.attestation == head.request.attestation && q.artifact == head.request.artifact
            && (minimum.Some? ==> 1 <= minimum.value <= NumberOf(head.checkpoint.release))
  {
    assert LinkOk(chain, |chain| - 1, env);
    if AttestationHash(q.attestation, env.h) == AttestationHash(head.request.attestation, env.h) {
      SameHash(env.h, Obj(q.attestation), Obj(head.request.attestation));
    }
  }

  /** A first checkpoint is made only with leave, and only when no head is named; any other follows the
      head that is named, by hash, number and channel. */
  lemma AdvanceFollows(q: Request, expected: Option<string>, allowGenesis: bool, env: Env)
    requires Advance(q, expected, allowGenesis, env).Some?
    ensures var c := Advance(q, expected, allowGenesis, env).value;
            && q.valid && c.channel == Str(q.channel) && c.publishedAt == Str(q.now)
            && c.release == ReleaseOf(q.attestation) && c.artifact == Str(q.artifact)
            && c.attestation == Str(AttestationHash(q.attestation, env.h))
            && (if q.presented.None? then
                  allowGenesis && expected.None? && c.sequence == Num(1) && c.previous == Null
                else
                  && q.presented.value.Some? && expected.Some? && c.previous == Str(expected.value)
                  && q.presented.value.value.channel == Str(q.channel)
                  && c.sequence == Num(NumOf(q.presented.value.value.sequence) + 1)
                  && NumberOf(q.presented.value.value.release) < NumberOf(c.release))
  {
  }

  /** With leave and no head named, a valid attestation of a release is published as the first. */
  lemma GenesisSucceeds(q: Request, env: Env)
    requires q.presented.None?
    ensures Advance(q, None, true, env).Some? <==> IsChannel(q.channel) && q.valid && IsRelease(ReleaseOf(q.attestation))
  {
  }

  /** Whoever presents the true head on its channel publishes exactly a valid attestation of a later
      release. */
  lemma HonestAdvanceSucceeds(chain: seq<Link>, q: Request, env: Env)
    requires ChainOk(chain, env) && chain != []
    requires q.presented == Some(Some(chain[|chain| - 1].checkpoint)) && q.channel == chain[|chain| - 1].request.channel
    ensures Advance(q, HeadHash(chain), false, env).Some?
       <==> && q.valid && IsRelease(ReleaseOf(q.attestation))
            && NumberOf(chain[|chain| - 1].checkpoint.release) < NumberOf(ReleaseOf(q.attestation))
    ensures Advance(q, HeadHash(chain), false, env).Some? ==>
              Advance(q, HeadHash(chain), false, env).value.sequence == Num(|chain| + 1)
  {
    assert LinkOk(chain, |chain| - 1, env);
  }

  /** The whole-run theorem: from an empty register, under arbitrary requests. */
  lemma EveryRun(requests: seq<Request>, env: Env)
    requires EnvOk(env) && RequestsOk(requests, env) && !SomeForges(requests, env)
    ensures ChainOk(Lineage(requests, env), env) && Linked(Lineage(requests, env), env.h)
  {
    EveryRunKeepsChain(requests, env);
    ChainIsLinked(Lineage(requests, env), env);
  }
}
