/** The table bodies of a SQL schema, found one after another. */
module TableBlocks {
  import opened Common
  import opened Strings
  import opened SchemaContract

  datatype Block = Block(table: string, body: string)
  datatype Found = Found(table: string, opening: nat)

  // ---------- the header ----------

  const HEADER := "create table"

  predicate IsHeader(s: string) {
    |s| >= |HEADER| && forall i :: 0 <= i < |HEADER| ==> LowerChar(s[i]) == HEADER[i]
  }

  predicate IsWordStart(c: char) { 'A' <= c <= 'Z' || 'a' <= c <= 'z' || c == '_' }

  predicate IsWord(c: char) { IsWordStart(c) || '0' <= c <= '9' }

  function Spaces(s: string): (n: nat)
    ensures n <= |s|
  {
    if s != "" && IsSpace(s[0]) then 1 + Spaces(s[1..]) else 0
  }

  function Word(s: string): (n: nat)
    ensures n <= |s|
  {
    if s != "" && IsWord(s[0]) then 1 + Word(s[1..]) else 0
  }

  /** A header at the front: the table's name and the place of its parenthesis. */
  function Match(s: string): (r: Option<Found>)
    ensures r.Some? ==> r.value.opening < |s| && s[r.value.opening] == '('
  {
    if !IsHeader(s) then None
    else
      var a := |HEADER| + Spaces(s[|HEADER|..]);
      var b := a + Word(s[a..]);
      var c := b + Spaces(s[b..]);
      if a > |HEADER| && a < b && IsWordStart(s[a]) && c < |s| && s[c] == '(' then Some(Found(s[a..b], c)) else None
  }

  /** `re.search`: the leftmost header. */
  function Search(s: string): (r: Option<Found>)
    ensures r.Some? ==> r.value.opening < |s| && s[r.value.opening] == '('
  {
    if Match(s).Some? then Match(s)
    else if s == "" then None
    else
      var found := Search(s[1..]);
      if found.Some? then Some(Found(found.value.table, found.value.opening + 1)) else None
  }

  // ---------- the closing parenthesis ----------

  predicate ClosesAt(t: string, k: nat)
    requires k < |t|
  {
    t[k] == ')' && !ScanOf(t[..k + 1]).quoted && ScanOf(t[..k + 1]).depth == 0
  }

  /** The first place from `k` on where the text closes, or its end. */
  function CloseFrom(t: string, k: nat): (e: nat)
    requires k <= |t|
    ensures k <= e <= |t| && (e < |t| ==> ClosesAt(t, e))
    ensures forall j :: k <= j < e ==> !ClosesAt(t, j)
    decreases |t| - k
  {
    if k == |t| || ClosesAt(t, k) then k else CloseFrom(t, k + 1)
  }

  lemma {:induction false} DepthStaysPositive(t: string, k: nat, n: nat)
    requires t != "" && t[0] == '(' && 1 <= n <= k <= |t|
    requires forall j :: 1 <= j < k ==> !ClosesAt(t, j)
    ensures ScanOf(t[..n]).depth >= 1
  {
    if n == 1 {
      assert t[..1] == "" + [t[0]];
      OneMore("", t[0]);
    } else {
      DepthStaysPositive(t, k, n - 1);
      assert t[..n] == t[..n - 1] + [t[n - 1]];
      OneMore(t[..n - 1], t[n - 1]);
      assert !ClosesAt(t, n - 1);
    }
  }

  /** A body ends at the parenthesis that matches the opening one, or at the end of the text:
      up to there the depth never comes back to 0. */
  lemma BodyEndsAtMatch(t: string)
    requires t != "" && t[0] == '('
    ensures var e := CloseFrom(t, 1);
            && (forall n :: 1 <= n <= e ==> ScanOf(t[..n]).depth >= 1)
            && (e < |t| ==> t[e] == ')' && ScanOf(t[..e + 1]).depth == 0 && !ScanOf(t[..e + 1]).quoted)
  {
    PositiveUpTo(t, CloseFrom(t, 1));
  }

  lemma PositiveUpTo(t: string, e: nat)
    requires t != "" && t[0] == '(' && 1 <= e <= |t| && forall j :: 1 <= j < e ==> !ClosesAt(t, j)
    ensures forall n :: 1 <= n <= e ==> ScanOf(t[..n]).depth >= 1
  {
    forall n | 1 <= n <= e ensures ScanOf(t[..n]).depth >= 1 { DepthStaysPositive(t, e, n); }
  }

  // ---------- the blocks ----------

  function Rest(t: string, e: nat): string { if e < |t| then t[e + 1..] else "" }

  function Blocks(s: string): seq<Block>
    decreases |s|
  {
    var found := Search(s);
    if found.None? then []
    else
      var t := s[found.value.opening..];
      var e := CloseFrom(t, 1);
      [Block(found.value.table, t[1..e])] + Blocks(Rest(t, e))
  }

  /** The inner loop, from the opening parenthesis to the end of the body. */
  method FindEnd(sql: string, opening: nat) returns (end: nat)
    requires opening < |sql| && sql[opening] == '('
    ensures end == opening + CloseFrom(sql[opening..], 1)
  {
    ghost var t := sql[opening..];
    ghost var at := START;
    var depth, inString := 0, false;
    end := opening;
    while end < |sql|
      invariant opening <= end <= |sql| && at == ScanOf(t[..end - opening])
      invariant depth == at.depth && inString == at.quoted
      invariant end > opening ==> (at.escaped <==> sql[end - 1] == '\\')
      invariant forall j :: 0 <= j < end - opening ==> !ClosesAt(t, j)
    {
      var c := sql[end];
      StepClose(t, end - opening);
      at := Next(at, c);
      if c == '\'' && (end == 0 || sql[end - 1] != '\\') {
        inString := !inString;
      }
      if !inString {
        if c == '(' {
          depth := depth + 1;
        } else if c == ')' {
          depth := depth - 1;
          if depth == 0 {
            break;
          }
        }
      }
      end := end + 1;
    }
    FirstClose(t, end - opening);
  }

  lemma StepClose(t: string, k: nat)
    requires k < |t|
    ensures ScanOf(t[..k + 1]) == Next(ScanOf(t[..k]), t[k])
    ensures ClosesAt(t, k) <==> t[k] == ')' && !Next(ScanOf(t[..k]), t[k]).quoted && Next(ScanOf(t[..k]), t[k]).depth == 0
  {
    assert t[..k + 1] == t[..k] + [t[k]];
    OneMore(t[..k], t[k]);
  }

  /** The first closing place is the one the search stops at. */
  lemma FirstClose(t: string, k: nat)
    requires 1 <= k <= |t| && (k < |t| ==> ClosesAt(t, k)) && forall j :: 1 <= j < k ==> !ClosesAt(t, j)
    ensures CloseFrom(t, 1) == k
  {
  }

  function From(sql: string, cursor: nat): string { if cursor <= |sql| then sql[cursor..] else "" }

  /** One table read: its block in front of the blocks of what follows its body. */
  lemma ReadTable(s: string, found: Found, t: string, e: nat, body: string, rest: string)
    requires Search(s) == Some(found) && t == s[found.opening..] && e == CloseFrom(t, 1)
    requires body == t[1..e] && rest == Rest(t, e)
    ensures Blocks(s) == [Block(found.table, body)] + Blocks(rest)
  {
  }

  lemma SameText(sql: string, cursor: nat, offset: nat, opening: nat, e: nat, end: nat)
    requires opening == cursor + offset < |sql| && opening < end == opening + e <= |sql|
    ensures From(sql, cursor)[offset..] == sql[opening..]
    ensures sql[opening + 1..end] == sql[opening..][1..e]
    ensures From(sql, end + 1) == Rest(sql[opening..], e)
  {
  }

  /** One round: the next block in front of what the search finds behind its body. */
  lemma NextBlock(sql: string, cursor: nat, found: Found, opening: nat, end: nat, block: Block)
    requires cursor <= |sql| && Search(From(sql, cursor)) == Some(found) && opening == cursor + found.opening
    requires end == opening + CloseFrom(sql[opening..], 1) && block == Block(found.table, sql[opening + 1..end])
    ensures Blocks(From(sql, cursor)) == [block] + Blocks(From(sql, end + 1))
  {
    SameText(sql, cursor, found.opening, opening, CloseFrom(sql[opening..], 1), end);
    ReadTable(From(sql, cursor), found, sql[opening..], CloseFrom(sql[opening..], 1), block.body, From(sql, end + 1));
  }

  /** `Blocks`, as a value. */
  ghost predicate IsBlocks(spec: string -> seq<Block>) {
    forall s {:trigger Blocks(s)} :: spec(s) == Blocks(s)
  }

  lemma NextOf(spec: string -> seq<Block>, sql: string, cursor: nat, found: Found, opening: nat, end: nat, block: Block)
    requires IsBlocks(spec) && cursor <= |sql| && Search(From(sql, cursor)) == Some(found)
    requires opening == cursor + found.opening && end == opening + CloseFrom(sql[opening..], 1)
    requires block == Block(found.table, sql[opening + 1..end])
    ensures spec(From(sql, cursor)) == [block] + spec(From(sql, end + 1))
  {
    NextBlock(sql, cursor, found, opening, end, block);
  }

  lemma NoneLeft(spec: string -> seq<Block>, s: string)
    requires IsBlocks(spec) && Search(s).None?
    ensures spec(s) == []
  {
    assert Blocks(s) == [];
  }

  /** The next header from the cursor on, with the end of its body. */
  method FindTable(sql: string, cursor: nat) returns (found: Option<Found>, opening: nat, end: nat)
    requires cursor <= |sql| + 1
    ensures found == Search(From(sql, cursor))
    ensures found.Some? ==>
              && cursor <= opening == cursor + found.value.opening < end <= |sql|
              && end == opening + CloseFrom(sql[opening..], 1)
  {
    found, opening, end := Search(From(sql, cursor)), cursor, cursor;
    if found.Some? {
      opening := cursor + found.value.opening;
      end := FindEnd(sql, opening);
    }
  }

  /** The outer loop.  The cursor moves past every body it yields, so the search ends. */
  method ScanTables(sql: string, ghost spec: string -> seq<Block>) returns (blocks: seq<Block>)
    requires IsBlocks(spec)
    ensures blocks == spec(sql)
  {
    blocks := [];
    var cursor := 0;
    assert From(sql, cursor) == sql;
    while true
      invariant 0 <= cursor <= |sql| + 1
      invariant blocks + spec(From(sql, cursor)) == spec(sql)
      decreases |sql| + 1 - cursor
    {
      var found, opening, end := FindTable(sql, cursor);
      if found.None? {
        NoneLeft(spec, From(sql, cursor));
        return;
      }
      var block := Block(found.value.table, sql[opening + 1..end]);
      NextOf(spec, sql, cursor, found.value, opening, end, block);
      Regroup(blocks, block, spec(From(sql, cursor)), spec(From(sql, end + 1)));
      blocks := blocks + [block];
      cursor := end + 1;
    }
  }

  /** `table_blocks` */
  method TableBlocksOf(sql: string) returns (blocks: seq<Block>)
    ensures blocks == Blocks(sql)
  {
    ghost var spec := (s: string) => Blocks(s);
    blocks := ScanTables(sql, spec);
  }

  lemma Regroup(done: seq<Block>, block: Block, todo: seq<Block>, rest: seq<Block>)
    requires todo == [block] + rest
    ensures done + todo == (done + [block]) + rest
  {
  }

  // ---------- a rendered schema comes back ----------

  predicate IsName(s: string) { s != "" && IsWordStart(s[0]) && forall i :: 0 <= i < |s| ==> IsWord(s[i]) }

  /** Parentheses outside quotes are balanced. */
  predicate Balanced(body: string) {
    && ScanOf(body).depth == 0 && !ScanOf(body).quoted
    && forall k :: 0 <= k <= |body| ==> ScanOf(body[..k]).depth >= 0
  }

  function Header(table: string): string { "CREATE TABLE " + table + " " }

  function Render(blocks: seq<Block>): string {
    if blocks == [] then ""
    else Header(blocks[0].table) + (['('] + blocks[0].body + ")" + (";\n" + Render(blocks[1..])))
  }

  lemma {:induction false} WordEnds(s: string, rest: string)
    requires (forall i :: 0 <= i < |s| ==> IsWord(s[i])) && rest != "" && !IsWord(rest[0])
    ensures Word(s + rest) == |s|
  {
    if s == "" {
      assert s + rest == rest;
    } else {
      assert (s + rest)[1..] == s[1..] + rest;
      WordEnds(s[1..], rest);
    }
  }

  lemma OneSpace(rest: string)
    requires rest != "" && !IsSpace(rest[0])
    ensures Spaces([' '] + rest) == 1
  {
    assert ([' '] + rest)[1..] == rest;
    assert Spaces(rest) == 0;
  }

  lemma HeaderParts(table: string, rest: string)
    ensures var s := Header(table) + rest;
            && s[12..] == [' '] + (table + [' '] + rest)
            && s[13..] == table + ([' '] + rest) && s[13..13 + |table|] == table
            && s[13 + |table|..] == [' '] + rest && s[14 + |table|..] == rest
  {
  }

  lemma HeaderMatches(table: string, rest: string)
    requires IsName(table) && rest != "" && rest[0] == '('
    ensures Match(Header(table) + rest) == Some(Found(table, |Header(table)|))
  {
    HeaderParts(table, rest);
    OneSpace(table + [' '] + rest);
    WordEnds(table, [' '] + rest);
    OneSpace(rest);
    HeaderStarts(table, rest);
  }

  lemma HeaderStarts(table: string, rest: string)
    ensures IsHeader(Header(table) + rest)
  {
  }

  /** Behind one open parenthesis the scan is one level deeper and otherwise the same. */
  lemma {:induction false} OneDeeper(b: string)
    ensures ScanOf(['('] + b) == ScanOf(b).(depth := ScanOf(b).depth + 1)
  {
    if b == "" {
      OneMore("", '(');
      assert ['('] + b == "" + ['('];
    } else {
      var n, t := |b| - 1, ['('] + b;
      OneDeeper(b[..n]);
      assert t[..|t| - 1] == ['('] + b[..n] && t[|t| - 1] == b[n];
    }
  }

  lemma BodyIsRead(body: string, rest: string)
    requires Balanced(body)
    ensures CloseFrom(['('] + body + ")" + rest, 1) == |body| + 1
  {
    var t := ['('] + body + ")" + rest;
    var k := |body| + 1;
    forall j | 1 <= j < k ensures !ClosesAt(t, j) {
      assert t[..j + 1] == ['('] + body[..j];
      OneDeeper(body[..j]);
    }
    OneDeeper(body);
    assert t[..k] == ['('] + body;
    StepClose(t, k);
    FirstClose(t, k);
  }

  lemma SearchSkips(c: char, s: string)
    requires LowerChar(c) != 'c'
    ensures Search([c] + s)
         == if Search(s).Some? then Some(Found(Search(s).value.table, Search(s).value.opening + 1)) else None
  {
    assert ([c] + s)[1..] == s;
    assert HEADER[0] == 'c';
    assert !IsHeader([c] + s);
  }

  lemma SkipOne(c: char, s: string)
    requires LowerChar(c) != 'c'
    ensures Blocks([c] + s) == Blocks(s)
  {
    SearchSkips(c, s);
    var found := Search(s);
    if found.Some? {
      var o := found.value.opening;
      assert ([c] + s)[o + 1..] == s[o..];
      var t, e := s[o..], CloseFrom(s[o..], 1);
      ReadTable(s, found.value, t, e, t[1..e], Rest(t, e));
      ReadTable([c] + s, Found(found.value.table, o + 1), t, e, t[1..e], Rest(t, e));
    }
  }

  lemma SkipBoth(s: string)
    ensures Blocks(";\n" + s) == Blocks(s)
  {
    SkipOne('\n', s);
    SkipOne(';', ['\n'] + s);
    assert [';'] + (['\n'] + s) == ";\n" + s;
  }

  lemma HeaderIsFound(table: string, t: string)
    requires IsName(table) && t != "" && t[0] == '('
    ensures Search(Header(table) + t) == Some(Found(table, |Header(table)|))
    ensures (Header(table) + t)[|Header(table)|..] == t
  {
    HeaderMatches(table, t);
  }

  lemma FirstBlock(block: Block, t: string, rest: string)
    requires IsName(block.table) && Balanced(block.body) && t == ['('] + block.body + ")" + rest
    ensures Blocks(Header(block.table) + t) == [block] + Blocks(rest)
  {
    var e := |block.body| + 1;
    HeaderIsFound(block.table, t);
    BodyIsRead(block.body, rest);
    BodySlices(block.body, rest);
    ReadTable(Header(block.table) + t, Found(block.table, |Header(block.table)|), t, e, block.body, rest);
  }

  lemma BodySlices(body: string, rest: string)
    ensures (['('] + body + ")" + rest)[1..|body| + 1] == body && Rest(['('] + body + ")" + rest, |body| + 1) == rest
  {
  }

  /** A rendered schema parses back to its tables, whatever their balanced bodies contain. */
  lemma {:induction false} SchemaComesBack(blocks: seq<Block>)
    requires forall i :: 0 <= i < |blocks| ==> IsName(blocks[i].table) && Balanced(blocks[i].body)
    ensures Blocks(Render(blocks)) == blocks
  {
    if blocks != [] {
      var rest := Render(blocks[1..]);
      SchemaComesBack(blocks[1..]);
      FirstBlock(blocks[0], ['('] + blocks[0].body + ")" + (";\n" + rest), ";\n" + rest);
      SkipBoth(rest);
    } else {
      assert Search("").None?;
    }
  }
}
