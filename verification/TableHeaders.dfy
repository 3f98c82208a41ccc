/** What the search for a table header finds, in terms of the text alone. */
module TableHeaders {
  import opened Common
  import opened Strings
  import opened Profiles
  import opened TableBlocks

  predicate Blank(s: string) { forall i :: 0 <= i < |s| ==> IsSpace(s[i]) }

  /** By its code in ASCII: a letter or the underscore. */
  predicate IsLetter(c: char) { 65 <= c as int <= 90 || 97 <= c as int <= 122 || c as int == 95 }

  predicate IsNumeral(c: char) { 48 <= c as int <= 57 }

  /** A letter or underscore, then letters, underscores and digits. */
  predicate IsIdentifier(s: string) {
    s != "" && IsLetter(s[0]) && forall i :: 0 <= i < |s| ==> IsLetter(s[i]) || IsNumeral(s[i])
  }

  lemma WordChars(c: char)
    ensures IsWordStart(c) <==> IsLetter(c)
    ensures IsWord(c) <==> IsLetter(c) || IsNumeral(c)
  {
  }

  lemma NamesAreIdentifiers(s: string)
    ensures IsName(s) <==> IsIdentifier(s)
  {
    forall i | 0 <= i < |s| ensures (IsWordStart(s[i]) <==> IsLetter(s[i]))
                                 && (IsWord(s[i]) <==> IsLetter(s[i]) || IsNumeral(s[i])) {
      WordChars(s[i]);
    }
  }

  /** `CREATE TABLE` in any case, blanks, a name up to `b`, blanks or none, a parenthesis at `c`. */
  ghost predicate IsHead(s: string, a: nat, b: nat, c: nat) {
    && 12 < a < b <= c < |s|
    && Lower(s[..12]) == "create table" && Blank(s[12..a]) && IsIdentifier(s[a..b]) && Blank(s[b..c]) && s[c] == '('
  }

  lemma {:induction false} SpacesExactly(s: string, n: nat)
    requires n <= |s|
    ensures Spaces(s) == n <==> Blank(s[..n]) && (n < |s| ==> !IsSpace(s[n]))
  {
    if s != "" && IsSpace(s[0]) {
      if n > 0 {
        SpacesExactly(s[1..], n - 1);
        assert s[..n] == [s[0]] + s[1..][..n - 1];
      }
    } else if n > 0 {
      assert s[..n][0] == s[0];
    }
  }

  predicate AllWord(s: string) { forall i :: 0 <= i < |s| ==> IsWord(s[i]) }

  lemma {:induction false} WordExactly(s: string, n: nat)
    requires n <= |s|
    ensures Word(s) == n <==> AllWord(s[..n]) && (n < |s| ==> !IsWord(s[n]))
  {
    if s != "" && IsWord(s[0]) {
      if n > 0 {
        WordExactly(s[1..], n - 1);
        assert s[..n] == [s[0]] + s[1..][..n - 1];
      }
    } else if n > 0 {
      assert s[..n][0] == s[0];
    }
  }

  lemma HeaderIsLower(s: string)
    ensures IsHeader(s) <==> |s| >= 12 && Lower(s[..12]) == "create table"
  {
    if |s| >= 12 {
      forall i | 0 <= i < 12 ensures Lower(s[..12])[i] == LowerChar(s[i]) { LowerAt(s[..12], i); }
      assert |HEADER| == 12 && HEADER == "create table";
      if IsHeader(s) { assert forall i :: 0 <= i < 12 ==> Lower(s[..12])[i] == HEADER[i]; }
    }
  }

  /** A header at the front is found exactly when it is there. */
  lemma MatchExactlyWhen(s: string, table: string, c: nat)
    ensures Match(s) == Some(Found(table, c)) <==> exists a: nat, b: nat :: IsHead(s, a, b, c) && s[a..b] == table
  {
    HeaderIsLower(s);
    if Match(s) == Some(Found(table, c)) {
      var a := 12 + Spaces(s[12..]);
      var b := a + Word(s[a..]);
      MatchIsHead(s, a, b, b + Spaces(s[b..]));
    }
    if a: nat, b: nat :| IsHead(s, a, b, c) && s[a..b] == table { HeadIsMatched(s, a, b, c); }
  }

  /** The three runs after the keyword. */
  ghost predicate RunsTo(s: string, a: nat, b: nat, c: nat) {
    12 <= a <= b <= c <= |s| && Spaces(s[12..]) == a - 12 && Word(s[a..]) == b - a && Spaces(s[b..]) == c - b
  }

  lemma MatchOfRuns(s: string, a: nat, b: nat, c: nat)
    requires |s| >= 12 && RunsTo(s, a, b, c)
    ensures Match(s) == if IsHeader(s) && 12 < a < b && IsWordStart(s[a]) && c < |s| && s[c] == '('
                        then Some(Found(s[a..b], c)) else None
  {
    assert |HEADER| == 12;
  }

  lemma RunsAre(s: string, a: nat, b: nat, c: nat)
    requires 12 <= a <= b <= c <= |s|
    ensures RunsTo(s, a, b, c) <==>
              && Blank(s[12..a]) && (a < |s| ==> !IsSpace(s[a])) && AllWord(s[a..b]) && (b < |s| ==> !IsWord(s[b]))
              && Blank(s[b..c]) && (c < |s| ==> !IsSpace(s[c]))
  {
    SpacesExactly(s[12..], a - 12);
    WordExactly(s[a..], b - a);
    SpacesExactly(s[b..], c - b);
    assert s[12..][..a - 12] == s[12..a] && s[a..][..b - a] == s[a..b] && s[b..][..c - b] == s[b..c];
  }

  lemma MatchIsHead(s: string, a: nat, b: nat, c: nat)
    requires |s| >= 12 && Lower(s[..12]) == "create table" && Match(s).Some? && RunsTo(s, a, b, c)
    ensures IsHead(s, a, b, c) && Match(s).value == Found(s[a..b], c)
  {
    MatchOfRuns(s, a, b, c);
    RunsAre(s, a, b, c);
    NamesAreIdentifiers(s[a..b]);
  }

  lemma HeadIsMatched(s: string, a: nat, b: nat, c: nat)
    requires IsHead(s, a, b, c)
    ensures Match(s) == Some(Found(s[a..b], c))
  {
    HeaderIsLower(s);
    NamesAreIdentifiers(s[a..b]);
    assert s[a..b][0] == s[a] && AllWord(s[a..b]);
    AfterName(s, b, c);
    RunsAre(s, a, b, c);
    MatchOfRuns(s, a, b, c);
  }

  lemma AfterName(s: string, b: nat, c: nat)
    requires b <= c < |s| && Blank(s[b..c]) && s[c] == '('
    ensures !IsWord(s[b])
  {
    if b < c { assert s[b..c][0] == s[b]; }
  }

  ghost predicate NoneBefore(s: string, n: nat) { n <= |s| + 1 && forall k :: 0 <= k < n ==> Match(s[k..]).None? }

  /** The header that starts at `k`, and none before it. */
  ghost predicate IsFirst(s: string, k: nat, found: Found) {
    && k <= |s| && NoneBefore(s, k) && Match(s[k..]).Some?
    && found == Found(Match(s[k..]).value.table, k + Match(s[k..]).value.opening)
  }

  lemma NoneBeforeTail(s: string, n: nat)
    requires s != "" && Match(s).None? && NoneBefore(s[1..], n)
    ensures NoneBefore(s, n + 1)
  {
    forall k | 0 <= k < n + 1 ensures Match(s[k..]).None? {
      if k == 0 { assert s[0..] == s; } else { assert s[1..][k - 1..] == s[k..]; }
    }
  }

  /** The search finds the leftmost header, and nothing only when there is none. */
  lemma {:induction false} SearchIsLeftmost(s: string)
    ensures Search(s).None? ==> NoneBefore(s, |s| + 1)
    ensures Search(s).Some? ==> exists k: nat :: IsFirst(s, k, Search(s).value)
  {
    assert s[0..] == s;
    if Match(s).Some? {
      assert IsFirst(s, 0, Search(s).value);
    } else if s != "" {
      SearchIsLeftmost(s[1..]);
      if Search(s[1..]).Some? {
        var k: nat :| IsFirst(s[1..], k, Search(s[1..]).value);
        NoneBeforeTail(s, k);
        assert s[1..][k..] == s[k + 1..];
        assert IsFirst(s, k + 1, Search(s).value);
      } else {
        NoneBeforeTail(s, |s|);
      }
    }
  }
}
