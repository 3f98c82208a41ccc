/** Quotes and parentheses counted by themselves, and what the schema scanner makes of them.

    A quote counts when it does not follow a backslash; a place is quoted when the quotes before it
    are odd in number; a parenthesis counts outside quotes.  Nothing here scans. */
module SchemaQuotes {
  import opened Strings
  import opened SchemaContract
  import opened TableBlocks

  predicate IsQuote(s: string, i: nat)
    requires i < |s|
  {
    s[i] == '\'' && (i == 0 || s[i - 1] != '\\')
  }

  /** How many quotes stand before place `n`. */
  function Quotes(s: string, n: nat): nat
    requires n <= |s|
  {
    if n == 0 then 0 else Quotes(s, n - 1) + if IsQuote(s, n - 1) then 1 else 0
  }

  predicate IsInside(s: string, n: nat)
    requires n <= |s|
  {
    Quotes(s, n) % 2 == 1
  }

  /** Opening less closing parentheses outside quotes before place `n`. */
  function Level(s: string, n: nat): int
    requires n <= |s|
  {
    if n == 0 then 0
    else
      Level(s, n - 1)
      + if IsInside(s, n - 1) then 0 else if s[n - 1] == '(' then 1 else if s[n - 1] == ')' then -1 else 0
  }

  predicate IsEscaped(s: string, n: nat)
    requires n <= |s|
  {
    n > 0 && s[n - 1] == '\\'
  }

  lemma QuoteTurns(s: string, n: nat)
    requires n < |s|
    ensures IsInside(s, n + 1) <==> if IsQuote(s, n) then !IsInside(s, n) else IsInside(s, n)
  {
  }

  lemma NextCounts(s: string, n: nat)
    requires n < |s|
    ensures Next(Scan(Level(s, n), IsInside(s, n), IsEscaped(s, n)), s[n])
         == Scan(Level(s, n + 1), IsInside(s, n + 1), IsEscaped(s, n + 1))
  {
    QuoteTurns(s, n);
  }

  /** The scan of a text knows exactly the parity of its quotes, its level and its last character. */
  lemma {:induction false} ScanCounts(s: string, n: nat)
    requires n <= |s|
    ensures ScanOf(s[..n]) == Scan(Level(s, n), IsInside(s, n), IsEscaped(s, n))
  {
    if n == 0 {
      assert s[..0] == "";
    } else {
      ScanCounts(s, n - 1);
      NextCounts(s, n - 1);
      assert s[..n] == s[..n - 1] + [s[n - 1]];
      OneMore(s[..n - 1], s[n - 1]);
    }
  }

  // ---------- the predicates of the scanner ----------

  /** A comma at level 0 outside quotes. */
  predicate IsTopComma(s: string, k: nat)
    requires k < |s|
  {
    s[k] == ',' && !IsInside(s, k) && Level(s, k) == 0
  }

  lemma CutsExactlyAtTopCommas(s: string, k: nat)
    requires k < |s|
    ensures Cuts(ScanOf(s[..k]), s[k]) <==> IsTopComma(s, k)
  {
    ScanCounts(s, k);
  }

  /** The splitter leaves a text whole exactly when it has no comma at level 0 outside quotes. */
  lemma OnePieceExactlyWhen(s: string)
    ensures Pieces(s) == [s] <==> forall k :: 0 <= k < |s| ==> !IsTopComma(s, k)
  {
    WholeExactlyWhenOnePiece(s);
    forall k | 0 <= k < |s| ensures Cuts(ScanOf(s[..k]), s[k]) <==> IsTopComma(s, k) { CutsExactlyAtTopCommas(s, k); }
  }

  /** How many commas the text is cut at before place `n`. */
  function TopCommas(s: string, n: nat): nat
    requires n <= |s|
  {
    if n == 0 then 0 else TopCommas(s, n - 1) + if IsTopComma(s, n - 1) then 1 else 0
  }

  /** The number of pieces is one more than that of the top-level commas; with `PiecesRejoin` this says
      where every cut is. */
  lemma {:induction false} PiecesAreCounted(s: string, n: nat)
    requires n <= |s|
    ensures |Pieces(s[..n])| == TopCommas(s, n) + 1
  {
    if n == 0 {
      assert s[..0] == "";
    } else {
      PiecesAreCounted(s, n - 1);
      CutsExactlyAtTopCommas(s, n - 1);
      assert s[..n] == s[..n - 1] + [s[n - 1]];
      OneMore(s[..n - 1], s[n - 1]);
    }
  }

  lemma DepthIsLevel(body: string, k: nat)
    requires k <= |body|
    ensures ScanOf(body[..k]).depth == Level(body, k)
  {
    ScanCounts(body, k);
  }

  ghost predicate NeverBelow(body: string) { forall k {:trigger Level(body, k)} :: 0 <= k <= |body| ==> Level(body, k) >= 0 }

  lemma NeverBelowExactlyWhen(body: string)
    ensures NeverBelow(body) <==> forall k :: 0 <= k <= |body| ==> ScanOf(body[..k]).depth >= 0
  {
    if NeverBelow(body) {
      forall k | 0 <= k <= |body| ensures ScanOf(body[..k]).depth >= 0 { DepthIsLevel(body, k); }
    }
    if forall k :: 0 <= k <= |body| ==> ScanOf(body[..k]).depth >= 0 {
      forall k {:trigger Level(body, k)} | 0 <= k <= |body| ensures Level(body, k) >= 0 {
        DepthIsLevel(body, k);
        assert ScanOf(body[..k]).depth >= 0;
      }
    }
  }

  /** A body is balanced exactly when its level ends at 0 outside quotes and is never negative. */
  lemma BalancedExactlyWhen(body: string)
    ensures Balanced(body) <==> Level(body, |body|) == 0 && !IsInside(body, |body|) && NeverBelow(body)
  {
    assert body[..|body|] == body;
    ScanCounts(body, |body|);
    NeverBelowExactlyWhen(body);
  }

  /** A table body ends at the first closing parenthesis outside quotes that brings the level to 0. */
  lemma BodyEndsExactlyAt(t: string)
    requires t != "" && t[0] == '('
    ensures var e := CloseFrom(t, 1);
            && (forall k :: 1 <= k < e ==> !(t[k] == ')' && !IsInside(t, k) && Level(t, k + 1) == 0))
            && (e < |t| ==> t[e] == ')' && !IsInside(t, e) && Level(t, e + 1) == 0)
  {
    forall k | 1 <= k < |t| ensures ClosesAt(t, k) <==> t[k] == ')' && !IsInside(t, k) && Level(t, k + 1) == 0 {
      ScanCounts(t, k + 1);
      QuoteTurns(t, k);
    }
  }

  // ---------- quoted literals ----------

  /** No quote and no backslash. */
  predicate IsLiteral(q: string) { forall i :: 0 <= i < |q| ==> q[i] != '\'' && q[i] != '\\' }

  function Quoted(q: string): string { ['\''] + q + ['\''] }

  lemma {:induction false} InsideLiteral(q: string, n: nat)
    requires IsLiteral(q) && 1 <= n <= |q| + 1
    ensures Quotes(Quoted(q), n) == 1 && Level(Quoted(q), n) == 0
  {
    if n > 1 {
      InsideLiteral(q, n - 1);
    }
  }

  lemma LiteralEnds(q: string)
    requires IsLiteral(q)
    ensures Level(Quoted(q), |q| + 2) == 0 && !IsInside(Quoted(q), |q| + 2)
  {
    InsideLiteral(q, |q| + 1);
    assert IsQuote(Quoted(q), |q| + 1);
  }

  lemma LiteralLevel(q: string, k: nat)
    requires IsLiteral(q) && k <= |q| + 2
    ensures Level(Quoted(q), k) == 0 && (k < |q| + 2 ==> !IsTopComma(Quoted(q), k))
  {
    if k == |q| + 2 { LiteralEnds(q); } else if k > 0 { InsideLiteral(q, k); }
  }

  /** A quoted literal is one piece and balanced, whatever commas and parentheses it holds. */
  lemma LiteralsAreClosed(q: string)
    requires IsLiteral(q)
    ensures Pieces(Quoted(q)) == [Quoted(q)] && Closed(Quoted(q)) && Balanced(Quoted(q))
  {
    var s := Quoted(q);
    forall k | 0 <= k < |s| ensures !IsTopComma(s, k) { LiteralLevel(q, k); }
    forall k {:trigger Level(s, k)} | 0 <= k <= |s| ensures Level(s, k) >= 0 { LiteralLevel(q, k); }
    LiteralEnds(q);
    OnePieceExactlyWhen(s);
    WholeExactlyWhenOnePiece(s);
    BalancedExactlyWhen(s);
  }

  // ---------- every cut ----------

  /** Without a top-level comma. */
  ghost predicate IsItem(p: string) { forall k :: 0 <= k < |p| ==> !IsTopComma(p, k) }

  /** Level 0 and outside quotes at its end. */
  predicate EndsOutside(p: string) { Level(p, |p|) == 0 && !IsInside(p, |p|) }

  ghost predicate IsSplit(s: string, ps: seq<string>) {
    && ps != [] && Join(ps, [',']) == s
    && (forall i :: 0 <= i < |ps| ==> IsItem(ps[i])) && (forall i :: 0 <= i < |ps| - 1 ==> EndsOutside(ps[i]))
  }

  lemma ItemIsWhole(p: string)
    ensures IsItem(p) <==> Whole(p)
    ensures EndsOutside(p) <==> ScansBack(p)
  {
    OnePieceExactlyWhen(p);
    WholeExactlyWhenOnePiece(p);
    ScanCounts(p, |p|);
    assert p[..|p|] == p;
  }

  /** The pieces of a text are the one list of texts without a top-level comma, all but the last ending
      at level 0 outside quotes, that the commas cut out join to it. */
  lemma SplitExactlyWhen(s: string, ps: seq<string>)
    ensures Pieces(s) == ps <==> IsSplit(s, ps)
  {
    SplitInvertsJoin(s, ps);
    forall i | 0 <= i < |ps| ensures (IsItem(ps[i]) <==> Whole(ps[i])) && (EndsOutside(ps[i]) <==> ScansBack(ps[i])) {
      ItemIsWhole(ps[i]);
    }
  }

  /** Dropping the empty items drops nothing else. */
  lemma {:induction false} OnlyEmptyItemsGo(items: seq<string>, x: string)
    ensures multiset(NonEmpty(items))[x] == if x == "" then 0 else multiset(items)[x]
  {
    if items != [] {
      OnlyEmptyItemsGo(items[1..], x);
      assert items == [items[0]] + items[1..];
    }
  }
}
