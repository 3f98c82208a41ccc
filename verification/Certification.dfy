/** Sealed evidence and the source-tree fingerprint.

    SHA-256 over UTF-8 is a parameter `h`.  Nothing is assumed about it beyond the length of a
    digest.  No digest function is free of collisions, so a property that rests on their absence
    names the two texts that would have to collide for it to fail. */
module Certification {
  import opened CanonicalJson
  import opened Strings

  type Hash = string -> string

  /** Two different texts with one digest. */
  predicate Clash(h: Hash, x: string, y: string) { x != y && h(x) == h(y) }

  ghost predicate IsDigest(h: Hash) {
    forall x :: |h(x)| == 64
  }

  lemma SameHash(h: Hash, a: Json, b: Json)
    requires h(Text(a)) == h(Text(b))
    ensures a == b || Clash(h, Text(a), Text(b))
  {
    TextIsInjective(a, b);
  }

  // ---------- seals ----------

  type Payload = map<string, Json>

  const EVIDENCE := "evidence_sha256"

  /** The text a seal hashes. */
  ghost function SealedText(p: Payload): string { Text(Obj(p - {EVIDENCE})) }

  ghost function BodyHash(p: Payload, h: Hash): string { h(SealedText(p)) }

  /** `seal_evidence` */
  ghost function Seal(p: Payload, h: Hash): Payload {
    (p - {EVIDENCE})[EVIDENCE := Str(BodyHash(p, h))]
  }

  /** `str(value or '')` for the values that can spell a digest; any other never equals one. */
  function EvidenceText(v: Json): string {
    match v
    case Str(s) => s
    case Num(n) => if n == 0 then "" else NumText(n)
    case _ => ""
  }

  /** `verify_evidence` */
  ghost predicate VerifyEvidence(p: Payload, h: Hash) {
    && EVIDENCE in p
    && EvidenceText(p[EVIDENCE]) != ""
    && EvidenceText(p[EVIDENCE]) == BodyHash(p, h)
  }

  /** A sealed payload verifies, and sealing again changes nothing. */
  lemma SealVerifies(p: Payload, h: Hash)
    requires IsDigest(h)
    ensures VerifyEvidence(Seal(p, h), h) && Seal(Seal(p, h), h) == Seal(p, h)
    ensures Seal(p, h) - {EVIDENCE} == p - {EVIDENCE}
    ensures Seal(p, h)["evidence_sha256"] == Str(h(Text(Obj(p - {"evidence_sha256"}))))
  {
    assert Seal(p, h) - {EVIDENCE} == p - {EVIDENCE};
  }

  /** Verified payloads with a textual seal are exactly the fixed points of sealing. */
  lemma VerifiedExactlyWhenSealed(p: Payload, h: Hash)
    requires IsDigest(h)
    ensures (VerifyEvidence(p, h) && p[EVIDENCE].Str?) <==> Seal(p, h) == p
  {
    if Seal(p, h) == p {
      assert p[EVIDENCE] == Str(BodyHash(p, h));
    }
  }

  /** A payload verifies exactly when its seal spells the digest of the rest, as a text or, should the
      digest be all decimal digits, as a number. */
  lemma VerifiedExactlyWhen(p: Payload, h: Hash)
    requires IsDigest(h)
    ensures VerifyEvidence(p, h) <==>
              && "evidence_sha256" in p
              && var digest := h(Text(Obj(p - {"evidence_sha256"})));
                 p["evidence_sha256"] == Str(digest) || (p["evidence_sha256"].Num? && NumText(p["evidence_sha256"].n) == digest)
  {
    if EVIDENCE in p && p[EVIDENCE].Num? && p[EVIDENCE].n == 0 { assert |NumText(0)| == 1; }
  }

  /** Two verified payloads with the same seal have the same body, whatever order their
      fields were filled in; so changing any other field breaks the seal. */
  lemma SealBindsBody(p: Payload, q: Payload, h: Hash)
    requires VerifyEvidence(p, h) && VerifyEvidence(q, h) && p[EVIDENCE] == q[EVIDENCE]
    ensures p == q || Clash(h, SealedText(p), SealedText(q))
  {
    SameHash(h, Obj(p - {EVIDENCE}), Obj(q - {EVIDENCE}));
    if p - {EVIDENCE} == q - {EVIDENCE} {
      assert p == (p - {EVIDENCE})[EVIDENCE := p[EVIDENCE]];
      assert q == (q - {EVIDENCE})[EVIDENCE := q[EVIDENCE]];
    }
  }

  lemma ChangedFieldBreaksSeal(p: Payload, field: string, value: Json, h: Hash)
    requires VerifyEvidence(p, h) && field != EVIDENCE && p[field := value] != p
    ensures !VerifyEvidence(p[field := value], h) || Clash(h, SealedText(p), SealedText(p[field := value]))
  {
    if VerifyEvidence(p[field := value], h) {
      SealBindsBody(p, p[field := value], h);
    }
  }

  // ---------- the source tree ----------

  /** A file under the root: the parts of its relative path and its bytes. */
  datatype File = File(parts: seq<string>, content: string)
  datatype Row = Row(path: string, digest: string)

  const TRANSIENT_PARTS: set<string> :=
    {".git", ".pytest_cache", "__pycache__", "node_modules", ".next", "test-results", "playwright-report", "certification-reports"}
  const TRANSIENT_SUFFIXES: set<string> := {".pyc", ".pyo", ".db", ".sqlite", ".sqlite3"}
  const TRANSIENT_NAMES: set<string> :=
    {"REPOSITORY_MANIFEST.txt", "staging-certification.json", "release-certification-bundle.json", "certification-execution-manifest.json"}
  const RUNNER_GENERATED_ROOT_FILES: set<string> := {"package-lock.json"}

  function RelPath(f: File): string { Join(f.parts, "/") }

  function Name(f: File): string { if f.parts == [] then "" else f.parts[|f.parts| - 1] }

  function LastDot(s: string): int {
    if s == "" then -1 else if s[|s| - 1] == '.' then |s| - 1 else LastDot(s[..|s| - 1])
  }

  /** `path.suffix`: from the last dot, unless that dot starts or ends the name. */
  function Suffix(name: string): string {
    var i := LastDot(name);
    if 0 < i < |name| - 1 then name[i..] else ""
  }

  predicate IsCounted(f: File) {
    && (forall part :: part in f.parts ==> part !in TRANSIENT_PARTS)
    && Name(f) !in TRANSIENT_NAMES && Lower(Suffix(Name(f))) !in TRANSIENT_SUFFIXES
    && RelPath(f) !in RUNNER_GENERATED_ROOT_FILES
  }

  predicate IsLastDot(s: string, i: nat)
    requires i < |s|
  {
    s[i] == '.' && forall j :: i < j < |s| ==> s[j] != '.'
  }

  lemma {:induction false} LastDotIs(s: string, i: nat)
    requires i < |s|
    ensures LastDot(s) == i <==> IsLastDot(s, i)
  {
    var n := |s| - 1;
    if i < n {
      if s[n] != '.' {
        LastDotIs(s[..n], i);
        assert IsLastDot(s, i) <==> IsLastDot(s[..n], i);
      } else {
        assert !IsLastDot(s, i);
      }
    } else {
      NoDotFrom(s);
    }
  }

  /** The name ends, in any case, with this extension, and something stands before it. */
  predicate EndsWith(name: string, extension: string) {
    |extension| < |name| && Lower(name[|name| - |extension|..]) == extension
  }

  /** A dot and then at least one character, none of them a dot. */
  predicate IsExtension(e: string) { |e| >= 2 && e[0] == '.' && forall i :: 1 <= i < |e| ==> e[i] != '.' }

  lemma LowerKeepsDots(s: string, i: nat)
    requires i < |s|
    ensures Lower(s)[i] == '.' <==> s[i] == '.'
  {
    if i > 0 { LowerKeepsDots(s[1..], i - 1); }
  }

  lemma {:induction false} NoDotFrom(s: string)
    ensures -1 <= LastDot(s) < |s| && (LastDot(s) >= 0 ==> s[LastDot(s)] == '.')
  {
    if s != "" && s[|s| - 1] != '.' { NoDotFrom(s[..|s| - 1]); }
  }

  lemma ExtensionIsSuffix(name: string, e: string)
    requires IsExtension(e) && EndsWith(name, e)
    ensures LastDot(name) == |name| - |e|
  {
    var k := |name| - |e|;
    var tail := name[k..];
    LowerKeepsDots(tail, 0);
    forall j | k < j < |name| ensures name[j] != '.' {
      LowerKeepsDots(tail, j - k);
      assert tail[j - k] == name[j];
    }
    LastDotIs(name, k);
  }

  lemma SuffixExactlyWhen(name: string, e: string)
    requires IsExtension(e)
    ensures Lower(Suffix(name)) == e <==> EndsWith(name, e)
  {
    NoDotFrom(name);
    if EndsWith(name, e) { ExtensionIsSuffix(name, e); }
  }

  /** A file is counted unless it lies under a transient directory, is a transient or runner-made file, or
      has a transient extension. */
  lemma CountedExactlyWhen(f: File)
    ensures IsCounted(f) <==>
              && (forall part :: part in f.parts ==>
                    part !in {".git", ".pytest_cache", "__pycache__", "node_modules", ".next", "test-results",
                              "playwright-report", "certification-reports"})
              && Name(f) !in {"REPOSITORY_MANIFEST.txt", "staging-certification.json", "release-certification-bundle.json",
                              "certification-execution-manifest.json"}
              && RelPath(f) != "package-lock.json"
              && forall e :: e in {".pyc", ".pyo", ".db", ".sqlite", ".sqlite3"} ==> !EndsWith(Name(f), e)
  {
    forall e | e in {".pyc", ".pyo", ".db", ".sqlite", ".sqlite3"}
      ensures Lower(Suffix(Name(f))) == e <==> EndsWith(Name(f), e)
    {
      SuffixExactlyWhen(Name(f), e);
    }
    assert TRANSIENT_SUFFIXES == {".pyc", ".pyo", ".db", ".sqlite", ".sqlite3"};
    var suffix := Lower(Suffix(Name(f)));
    if suffix in TRANSIENT_SUFFIXES { assert EndsWith(Name(f), suffix); }
    if e :| e in {".pyc", ".pyo", ".db", ".sqlite", ".sqlite3"} && EndsWith(Name(f), e) { assert suffix == e; }
  }

  /** The counted files in order, by path and content. */
  function Listing(files: seq<File>): seq<(string, string)> {
    if files == [] then []
    else
      var rest := Listing(files[..|files| - 1]);
      var f := files[|files| - 1];
      if IsCounted(f) then rest + [(RelPath(f), f.content)] else rest
  }

  function RowsOf(listing: seq<(string, string)>, h: Hash): seq<Row> {
    seq(|listing|, i requires 0 <= i < |listing| => Row(listing[i].0, h(listing[i].1)))
  }

  function RowText(r: Row): string { r.path + ['\0'] + r.digest }

  function RowTexts(rows: seq<Row>): seq<string> {
    seq(|rows|, i requires 0 <= i < |rows| => RowText(rows[i]))
  }

  /** `'\n'.join(rows) + '\n'` */
  function FingerprintText(rows: seq<Row>): string { Join(RowTexts(rows), "\n") + "\n" }

  /** `source_tree_fingerprint` over the files in sorted order. */
  method SourceTreeFingerprint(files: seq<File>, h: Hash) returns (sha: string, count: nat)
    ensures count == |Listing(files)|
    ensures sha == h(FingerprintText(RowsOf(Listing(files), h)))
  {
    var rows: seq<string> := [];
    count := 0;
    for i := 0 to |files|
      invariant count == |Listing(files[..i])|
      invariant rows == RowTexts(RowsOf(Listing(files[..i]), h))
    {
      var f := files[i];
      assert files[..i + 1][..i] == files[..i];
      if IsCounted(f) {
        rows := rows + [RelPath(f) + ['\0'] + h(f.content)];
        count := count + 1;
      }
    }
    assert files[..|files|] == files;
    sha := h(Join(rows, "\n") + "\n");
  }

  ghost predicate RowsOk(rows: seq<Row>) {
    forall i :: 0 <= i < |rows| ==> '\0' !in rows[i].path && |rows[i].digest| == 64
  }

  function FirstNul(s: string): nat {
    if s == "" || s[0] == '\0' then 0 else 1 + FirstNul(s[1..])
  }

  lemma {:induction false} PathEndsAtNul(path: string, rest: string)
    requires '\0' !in path
    ensures FirstNul(path + ['\0'] + rest) == |path|
  {
    if path == "" {
      assert (path + ['\0'] + rest)[0] == '\0';
    } else {
      assert (path + ['\0'] + rest)[1..] == path[1..] + ['\0'] + rest;
      PathEndsAtNul(path[1..], rest);
    }
  }

  /** One line of the fingerprint text, whatever the path contains but NUL. */
  lemma RowPrefix(a: Row, b: Row, r: string, s: string)
    requires '\0' !in a.path && '\0' !in b.path && |a.digest| == |b.digest|
    requires RowText(a) + r == RowText(b) + s
    ensures a == b && r == s
  {
    Assoc(a.path + ['\0'], a.digest, r);
    Assoc(b.path + ['\0'], b.digest, s);
    PathEndsAtNul(a.path, a.digest + r);
    PathEndsAtNul(b.path, b.digest + s);
    Cancel(a.path + ['\0'], b.path + ['\0'], a.digest + r, b.digest + s);
    Cancel(a.path, b.path, ['\0'], ['\0']);
    Cancel(a.digest, b.digest, r, s);
  }

  lemma FingerprintSplits(rows: seq<Row>)
    requires rows != []
    ensures FingerprintText(rows) == RowText(rows[0]) + ("\n" + if |rows| == 1 then "" else FingerprintText(rows[1..]))
  {
    var t := RowTexts(rows);
    assert t[1..] == RowTexts(rows[1..]);
    if |rows| > 1 {
      Assoc(t[0] + "\n", Join(t[1..], "\n"), "\n");
      Assoc(t[0], "\n", FingerprintText(rows[1..]));
    } else {
      assert "\n" + "" == "\n";
    }
  }

  lemma FingerprintLength(rows: seq<Row>)
    requires rows != []
    ensures |FingerprintText(rows)| >= 2
  {
    FingerprintSplits(rows);
  }

  /** The text hashed for a source tree determines its rows, even when paths contain newlines. */
  lemma {:induction false} FingerprintTextIsInjective(a: seq<Row>, b: seq<Row>)
    requires RowsOk(a) && RowsOk(b) && FingerprintText(a) == FingerprintText(b)
    ensures a == b
    decreases |a|
  {
    if a == [] || b == [] {
      assert FingerprintText([]) == "\n";
      if a != [] { FingerprintLength(a); }
      if b != [] { FingerprintLength(b); }
    } else {
      FingerprintSplits(a);
      FingerprintSplits(b);
      var x := if |a| == 1 then "" else FingerprintText(a[1..]);
      var y := if |b| == 1 then "" else FingerprintText(b[1..]);
      RowPrefix(a[0], b[0], "\n" + x, "\n" + y);
      Cancel("\n", "\n", x, y);
      if |a| > 1 && |b| > 1 {
        FingerprintTextIsInjective(a[1..], b[1..]);
      }
      assert a == [a[0]] + a[1..] && b == [b[0]] + b[1..];
    }
  }

  ghost predicate PathsOk(files: seq<File>) {
    forall f :: f in files ==> '\0' !in RelPath(f)
  }

  lemma {:induction false} ListingPaths(files: seq<File>)
    requires PathsOk(files)
    ensures forall i :: 0 <= i < |Listing(files)| ==> '\0' !in Listing(files)[i].0
  {
    if files != [] {
      ListingPaths(files[..|files| - 1]);
    }
  }

  /** Two files listed at the same place whose contents clash. */
  ghost predicate ContentsClash(a: seq<(string, string)>, b: seq<(string, string)>, h: Hash) {
    exists i :: 0 <= i < |a| && i < |b| && Clash(h, a[i].1, b[i].1)
  }

  /** Equal fingerprints mean the same counted paths with the same contents. */
  lemma FingerprintBindsTree(a: seq<File>, b: seq<File>, h: Hash)
    requires IsDigest(h) && PathsOk(a) && PathsOk(b)
    requires h(FingerprintText(RowsOf(Listing(a), h))) == h(FingerprintText(RowsOf(Listing(b), h)))
    ensures || Listing(a) == Listing(b)
            || Clash(h, FingerprintText(RowsOf(Listing(a), h)), FingerprintText(RowsOf(Listing(b), h)))
            || ContentsClash(Listing(a), Listing(b), h)
  {
    var x, y := RowsOf(Listing(a), h), RowsOf(Listing(b), h);
    ListingPaths(a);
    ListingPaths(b);
    if FingerprintText(x) == FingerprintText(y) {
      FingerprintTextIsInjective(x, y);
      if Listing(a) != Listing(b) {
        var i :| 0 <= i < |x| && Listing(a)[i] != Listing(b)[i];
        assert x[i] == y[i];
        assert Clash(h, Listing(a)[i].1, Listing(b)[i].1);
      }
    }
  }
}
