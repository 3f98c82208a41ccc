/** The scanner that reads tables and their items out of a SQL schema. */
module SchemaContract {
  import opened Strings

  /** Where a scan stands: nesting, inside quotes or not, and whether the last character was a
      backslash. */
  datatype Scan = Scan(depth: int, quoted: bool, escaped: bool)

  const START := Scan(0, false, false)

  function Next(at: Scan, c: char): Scan {
    var quoted := if c == '\'' && !at.escaped then !at.quoted else at.quoted;
    var depth := if quoted then at.depth else if c == '(' then at.depth + 1 else if c == ')' then at.depth - 1 else at.depth;
    Scan(depth, quoted, c == '\\')
  }

  function ScanOf(s: string): Scan {
    if s == "" then START else Next(ScanOf(s[..|s| - 1]), s[|s| - 1])
  }

  // ---------- splitting ----------

  /** A comma at which the text is cut. */
  predicate Cuts(at: Scan, c: char) { c == ',' && !at.quoted && at.depth == 0 }

  /** The pieces between the cuts, unstripped. */
  function Pieces(s: string): (r: seq<string>)
    ensures r != []
  {
    if s == "" then [""]
    else
      var n := |s| - 1;
      var before := Pieces(s[..n]);
      if Cuts(ScanOf(s[..n]), s[n]) then before + [""] else Grown(before, s[n])
  }

  /** The last piece with one more character. */
  function Grown(pieces: seq<string>, c: char): seq<string>
    requires pieces != []
  {
    pieces[..|pieces| - 1] + [pieces[|pieces| - 1] + [c]]
  }

  lemma OneMore(s: string, c: char)
    ensures ScanOf(s + [c]) == Next(ScanOf(s), c)
    ensures Pieces(s + [c]) == if Cuts(ScanOf(s), c) then Pieces(s) + [""] else Grown(Pieces(s), c)
  {
    assert (s + [c])[..|s|] == s;
  }

  function StripAll(pieces: seq<string>): seq<string> {
    seq(|pieces|, i requires 0 <= i < |pieces| => Strip(pieces[i]))
  }

  function NonEmpty(items: seq<string>): seq<string> {
    if items == [] then [] else (if items[0] != "" then [items[0]] else []) + NonEmpty(items[1..])
  }

  /** `split_top` */
  method SplitTop(value: string) returns (items: seq<string>)
    ensures items == NonEmpty(StripAll(Pieces(value)))
  {
    var out: seq<string> := [];
    var start, depth, inString := 0, 0, false;
    for index := 0 to |value|
      invariant 0 <= start <= index
      invariant ScanOf(value[..index]) == Scan(depth, inString, index > 0 && value[index - 1] == '\\')
      invariant Current(value[..index]) == value[start..index] && out == StripAll(Done(value[..index]))
    {
      var c := value[index];
      StepPieces(value, index);
      if c == '\'' && (index == 0 || value[index - 1] != '\\') {
        inString := !inString;
      }
      if !inString {
        if c == '(' {
          depth := depth + 1;
        } else if c == ')' {
          depth := depth - 1;
        } else if c == ',' && depth == 0 {
          out := out + [Strip(value[start..index])];
          start := index + 1;
        }
      }
      assert value[start..index + 1] == if start <= index then value[start..index] + [c] else "";
    }
    assert value[..|value|] == value;
    out := out + [Strip(value[start..])];
    LastStripped(value);
    items := NonEmpty(out);
  }

  function Done(s: string): seq<string> { Pieces(s)[..|Pieces(s)| - 1] }

  function Current(s: string): string { Pieces(s)[|Pieces(s)| - 1] }

  lemma StepPieces(value: string, index: nat)
    requires index < |value|
    ensures ScanOf(value[..index + 1]) == Next(ScanOf(value[..index]), value[index])
    ensures Cuts(ScanOf(value[..index]), value[index]) ==>
              && Current(value[..index + 1]) == ""
              && StripAll(Done(value[..index + 1])) == StripAll(Done(value[..index])) + [Strip(Current(value[..index]))]
    ensures !Cuts(ScanOf(value[..index]), value[index]) ==>
              && Current(value[..index + 1]) == Current(value[..index]) + [value[index]]
              && Done(value[..index + 1]) == Done(value[..index])
  {
    OneMore(value[..index], value[index]);
    assert value[..index + 1] == value[..index] + [value[index]];
    LastStripped(value[..index]);
  }

  lemma LastStripped(s: string)
    ensures StripAll(Pieces(s)) == StripAll(Done(s)) + [Strip(Current(s))]
  {
  }

  // ---------- splitting inverts joining ----------

  lemma {:induction false} JoinExtends(xs: seq<string>, y: string)
    requires xs != []
    ensures Join(xs + [y], [',']) == Join(xs, [',']) + [','] + y
  {
    if |xs| == 1 {
      assert (xs + [y])[1..] == [y];
    } else {
      JoinExtends(xs[1..], y);
      assert (xs + [y])[1..] == xs[1..] + [y];
      var rest := Join(xs[1..], [',']);
      assert xs[0] + [','] + (rest + [','] + y) == (xs[0] + [','] + rest) + [','] + y;
    }
  }

  lemma JoinGrows(xs: seq<string>, y: string, c: char)
    ensures Join(xs + [y + [c]], [',']) == Join(xs + [y], [',']) + [c]
  {
    if xs == [] {
      assert xs + [y + [c]] == [y + [c]] && xs + [y] == [y];
    } else {
      JoinExtends(xs, y + [c]);
      JoinExtends(xs, y);
      assert Join(xs, [',']) + [','] + (y + [c]) == Join(xs, [',']) + [','] + y + [c];
    }
  }

  /** The unstripped pieces of any text rejoin to it. */
  lemma {:induction false} PiecesRejoin(s: string)
    ensures Join(Pieces(s), [',']) == s
  {
    if s != "" {
      var n := |s| - 1;
      var before := Pieces(s[..n]);
      PiecesRejoin(s[..n]);
      assert s == s[..n] + [s[n]];
      if Cuts(ScanOf(s[..n]), s[n]) {
        JoinExtends(before, "");
        assert s[..n] + [','] + "" == s;
      } else {
        var m := |before| - 1;
        JoinGrows(before[..m], before[m], s[n]);
        assert before[..m] + [before[m]] == before;
      }
    }
  }

  /** A text without a comma at depth 0 outside quotes. */
  predicate Whole(s: string) { forall k :: 0 <= k < |s| ==> !Cuts(ScanOf(s[..k]), s[k]) }

  /** The scan ends as it began, at depth 0 outside quotes. */
  predicate ScansBack(s: string) { ScanOf(s).depth == 0 && !ScanOf(s).quoted }

  /** A whole text that scans back to where it began. */
  predicate Closed(s: string) { Whole(s) && ScansBack(s) }

  predicate OnePiece(s: string) { Pieces(s) == [s] }

  lemma WholeButLast(s: string, n: nat)
    requires s != "" && n == |s| - 1
    ensures Whole(s) <==> Whole(s[..n]) && !Cuts(ScanOf(s[..n]), s[n])
  {
    forall k | 0 <= k < n ensures s[..n][..k] == s[..k] && s[..n][k] == s[k] {}
  }

  /** The splitter leaves a text in one piece exactly when it has no such comma. */
  lemma {:induction false} WholeExactlyWhenOnePiece(s: string)
    ensures Whole(s) <==> OnePiece(s)
  {
    if s != "" {
      var n := |s| - 1;
      WholeButLast(s, n);
      WholeExactlyWhenOnePiece(s[..n]);
      PiecesRejoin(s[..n]);
      assert s == s[..n] + [s[n]];
    }
  }

  lemma OnePiecePrefix(s: string, n: nat)
    requires OnePiece(s) && n == |s| - 1
    ensures OnePiece(s[..n]) && !Cuts(ScanOf(s[..n]), s[n])
  {
    PiecesRejoin(s[..n]);
  }

  lemma OneMoreOfLast(base: string, done: seq<string>, q: string, c: char)
    requires Pieces(base + q) == done + [q] && ScanOf(base + q) == ScanOf(q) && !Cuts(ScanOf(q), c)
    ensures Pieces(base + (q + [c])) == done + [q + [c]] && ScanOf(base + (q + [c])) == ScanOf(q + [c])
  {
    assert base + (q + [c]) == base + q + [c];
    OneMore(base + q, c);
    OneMore(q, c);
    GrownLast(done, q, c);
  }

  /** After a cut the scan starts afresh. */
  lemma {:induction false} AfterCut(base: string, done: seq<string>, p: string)
    requires ScanOf(base) == START && Pieces(base) == done + [""] && OnePiece(p)
    ensures Pieces(base + p) == done + [p] && ScanOf(base + p) == ScanOf(p)
  {
    if p == "" {
      assert base + p == base;
    } else {
      var n := |p| - 1;
      OnePiecePrefix(p, n);
      AfterCut(base, done, p[..n]);
      OneMoreOfLast(base, done, p[..n], p[n]);
      assert p[..n] + [p[n]] == p;
    }
  }

  lemma AfterComma(x: string, p: string)
    requires ScanOf(x).depth == 0 && !ScanOf(x).quoted && OnePiece(p)
    ensures Pieces(x + [','] + p) == Pieces(x) + [p] && ScanOf(x + [','] + p) == ScanOf(p)
  {
    OneMore(x, ',');
    AfterCut(x + [','], Pieces(x), p);
  }

  lemma GrownLast(pieces: seq<string>, p: string, c: char)
    ensures Grown(pieces + [p], c) == pieces + [p + [c]]
  {
  }

  /** Whole texts, all but the last closed. */
  ghost predicate Separable(ps: seq<string>) {
    ps != [] && Whole(ps[|ps| - 1]) && forall i :: 0 <= i < |ps| - 1 ==> Closed(ps[i])
  }

  ghost predicate SplitsToItself(ps: seq<string>) {
    ps != [] && OnePiece(ps[|ps| - 1]) && forall i :: 0 <= i < |ps| - 1 ==> OnePiece(ps[i]) && ScansBack(ps[i])
  }

  lemma SeparableSplits(ps: seq<string>)
    ensures Separable(ps) <==> SplitsToItself(ps)
  {
    forall i | 0 <= i < |ps| ensures Whole(ps[i]) <==> OnePiece(ps[i]) { WholeExactlyWhenOnePiece(ps[i]); }
  }

  lemma {:induction false} SplitOfJoin(ps: seq<string>)
    requires SplitsToItself(ps)
    ensures Pieces(Join(ps, [','])) == ps && ScanOf(Join(ps, [','])) == ScanOf(ps[|ps| - 1])
  {
    var n := |ps| - 1;
    assert ps == ps[..n] + [ps[n]];
    if n > 0 {
      SplitOfJoin(ps[..n]);
      JoinExtends(ps[..n], ps[n]);
      AfterComma(Join(ps[..n], [',']), ps[n]);
    }
  }

  /** Texts without a top-level comma that scan back to where they began come back from their join. */
  lemma PiecesOfJoin(ps: seq<string>)
    requires Separable(ps)
    ensures Pieces(Join(ps, [','])) == ps && ScanOf(Join(ps, [','])) == ScanOf(ps[|ps| - 1])
  {
    SeparableSplits(ps);
    SplitOfJoin(ps);
  }

  lemma CutSplits(s: string, ps: seq<string>)
    requires SplitsToItself(ps) && ScanOf(s) == ScanOf(ps[|ps| - 1]) && Cuts(ScanOf(s), ',')
    ensures SplitsToItself(ps + [""]) && ScanOf(s + [',']) == ScanOf("")
  {
    OneMore(s, ',');
  }

  lemma GrowthSplits(s: string, ps: seq<string>, c: char)
    requires SplitsToItself(ps) && ScanOf(s) == ScanOf(ps[|ps| - 1]) && !Cuts(ScanOf(s), c)
    ensures SplitsToItself(Grown(ps, c))
    ensures ScanOf(s + [c]) == ScanOf(Grown(ps, c)[|ps| - 1])
  {
    var last := ps[|ps| - 1];
    OneMore(s, c);
    OneMore(last, c);
    assert Grown([last], c) == [last + [c]];
  }

  lemma {:induction false} PiecesSplitToThemselves(s: string)
    ensures SplitsToItself(Pieces(s)) && ScanOf(s) == ScanOf(Pieces(s)[|Pieces(s)| - 1])
  {
    if s != "" {
      var n := |s| - 1;
      PiecesSplitToThemselves(s[..n]);
      assert s == s[..n] + [s[n]];
      if Cuts(ScanOf(s[..n]), s[n]) {
        CutSplits(s[..n], Pieces(s[..n]));
      } else {
        GrowthSplits(s[..n], Pieces(s[..n]), s[n]);
      }
    }
  }

  /** Splitting is exactly the inverse of joining: the pieces of a text are the one list of whole
      pieces, all but the last closed, whose join it is. */
  lemma SplitInvertsJoin(s: string, ps: seq<string>)
    ensures Pieces(s) == ps <==> Separable(ps) && Join(ps, [',']) == s
  {
    PiecesRejoin(s);
    PiecesSplitToThemselves(s);
    SeparableSplits(Pieces(s));
    if Separable(ps) {
      PiecesOfJoin(ps);
    }
  }

  lemma {:induction false} NonEmptyIsFixed(items: seq<string>)
    requires forall i :: 0 <= i < |items| ==> items[i] != ""
    ensures NonEmpty(items) == items
  {
    if items != [] {
      NonEmptyIsFixed(items[1..]);
    }
  }

  lemma StrippedItems(items: seq<string>)
    requires forall i :: 0 <= i < |items| ==> Stripped(items[i])
    ensures StripAll(items) == items
  {
    forall i | 0 <= i < |items| ensures Strip(items[i]) == items[i] { StrippedIsFixed(items[i]); }
  }

  /** Items that are non-empty, stripped and closed come back from their comma-join. */
  lemma ItemsComeBack(items: seq<string>)
    requires forall i :: 0 <= i < |items| ==> items[i] != "" && Stripped(items[i]) && Closed(items[i])
    ensures NonEmpty(StripAll(Pieces(Join(items, [','])))) == items
  {
    if items == [] {
      assert StripAll([""]) == [""];
    } else {
      PiecesOfJoin(items);
      StrippedItems(items);
      NonEmptyIsFixed(items);
    }
  }
}
