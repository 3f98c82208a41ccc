/** The canonical text against JSON itself (RFC 8259): what its strings read as, and how its arrays,
    objects and numbers are written. */
module CanonicalForm {
  import opened Common
  import opened Strings
  import opened CanonicalJson

  // ---------- strings, section 7 ----------

  function HexValue(c: char): int {
    var n := c as int;
    if 48 <= n <= 57 then n - 48 else if 97 <= n <= 102 then n - 87 else if 65 <= n <= 70 then n - 55 else -1
  }

  /** The character that a two-character escape stands for. */
  function ShortEscape(c: char): Option<char> {
    if c == '"' || c == '\\' || c == '/' then Some(c)
    else if c == 'b' then Some(8 as char)
    else if c == 'f' then Some(12 as char)
    else if c == 'n' then Some(10 as char)
    else if c == 'r' then Some(13 as char)
    else if c == 't' then Some(9 as char)
    else None
  }

  predicate IsLongEscape(s: string) {
    |s| >= 6 && s[0] == '\\' && s[1] == 'u' && forall i :: 2 <= i < 6 ==> HexValue(s[i]) >= 0
  }

  function CodeOf(s: string): int
    requires IsLongEscape(s)
  {
    4096 * HexValue(s[2]) + 256 * HexValue(s[3]) + 16 * HexValue(s[4]) + HexValue(s[5])
  }

  datatype Piece = Piece(c: char, length: nat)

  /** The first character of the body of a string and how much text spells it; pairs of surrogates, which
      the canonical text never writes, are not read. */
  function ReadChar(s: string): (r: Option<Piece>)
    ensures r.Some? ==> 1 <= r.value.length <= |s|
  {
    if s == "" || s[0] == '"' || s[0] as int < 32 then None
    else if s[0] != '\\' then Some(Piece(s[0], 1))
    else if |s| >= 2 && ShortEscape(s[1]).Some? then Some(Piece(ShortEscape(s[1]).value, 2))
    else if IsLongEscape(s) && 0 <= CodeOf(s) < 0xD800 then Some(Piece(CodeOf(s) as char, 6))
    else None
  }

  function ReadBody(s: string): Option<string>
    decreases |s|
  {
    if s == "" then Some("")
    else
      var first := ReadChar(s);
      if first.None? then None
      else
        var rest := ReadBody(s[first.value.length..]);
        if rest.None? then None else Some([first.value.c] + rest.value)
  }

  lemma HexReads(d: nat)
    requires d < 16
    ensures HexValue(Hex(d)) == d && Hex(d) in "0123456789abcdef"
  {
  }

  lemma SixRead(s: string, high: nat, low: nat)
    requires high < 2 && low < 16 && |s| >= 6
    requires s[0] == '\\' && s[1] == 'u' && s[2] == '0' && s[3] == '0' && s[4] == Hex(high) && s[5] == Hex(low)
    ensures ReadChar(s) == Some(Piece((16 * high + low) as char, 6))
  {
    HexReads(high);
    HexReads(low);
    assert HexValue('0') == 0;
    assert IsLongEscape(s) && CodeOf(s) == 16 * high + low;
  }

  lemma LongIsRead(c: char, rest: string)
    requires |EscapeChar(c)| == 6
    ensures ReadChar(EscapeChar(c) + rest) == Some(Piece(c, 6))
  {
    var s, e := EscapeChar(c) + rest, EscapeChar(c);
    assert forall i :: 0 <= i < 6 ==> s[i] == e[i];
    SixRead(s, (c as int) / 16, (c as int) % 16);
  }

  lemma ShortIsRead(c: char, rest: string)
    requires |EscapeChar(c)| < 6
    ensures ReadChar(EscapeChar(c) + rest) == Some(Piece(c, |EscapeChar(c)|))
  {
    var s := EscapeChar(c) + rest;
    assert s[0] == EscapeChar(c)[0];
    if |EscapeChar(c)| == 2 { assert s[1] == EscapeChar(c)[1]; }
  }

  lemma EscapeIsRead(c: char, rest: string)
    ensures ReadChar(EscapeChar(c) + rest) == Some(Piece(c, |EscapeChar(c)|))
    ensures (EscapeChar(c) + rest)[|EscapeChar(c)|..] == rest
  {
    if |EscapeChar(c)| == 6 { LongIsRead(c, rest); } else { ShortIsRead(c, rest); }
  }

  /** A JSON reader gets back what was written, whatever the string contains. */
  lemma {:induction false} EscapeReads(s: string)
    ensures ReadBody(Escape(s)) == Some(s)
  {
    if s != "" {
      EscapeIsRead(s[0], Escape(s[1..]));
      EscapeReads(s[1..]);
      assert [s[0]] + s[1..] == s;
    }
  }

  /** Only quotes, backslashes and control characters are escaped; those with a short escape get it, the
      others four hexadecimal digits in lower case. */
  lemma EscapedExactly(c: char)
    ensures EscapeChar(c) == [c] <==> c as int >= 32 && c != '"' && c != '\\'
    ensures |EscapeChar(c)| == 2 <==> c as int in {34, 92, 8, 9, 10, 12, 13}
    ensures |EscapeChar(c)| in {1, 2, 6}
    ensures |EscapeChar(c)| == 6 ==> forall i :: 2 <= i < 6 ==> EscapeChar(c)[i] in "0123456789abcdef"
  {
    if (c as int) < 32 {
      HexReads((c as int) / 16);
      HexReads((c as int) % 16);
    }
  }

  // ---------- numbers, section 6 ----------

  predicate IsNumeralText(t: string) { t != "" && t[0] != '0' && forall i :: 0 <= i < |t| ==> 48 <= t[i] as int <= 57 }

  /** A decimal text without leading zero is the decimal of its value. */
  lemma {:induction false} NumeralIsDecimal(t: string)
    requires IsNumeralText(t)
    ensures ValueOf(t) >= 1 && Decimal(ValueOf(t)) == t
  {
    var n := |t| - 1;
    var d := t[n] as int - 48;
    DigitIsDigit(d);
    if n == 0 {
      assert t[..0] == "" && t == [t[0]];
    } else {
      NumeralIsDecimal(t[..n]);
      assert ValueOf(t) / 10 == ValueOf(t[..n]) && ValueOf(t) % 10 == d;
      assert t == t[..n] + [t[n]];
    }
  }

  lemma {:induction false} DecimalIsNumeral(n: nat)
    requires n >= 1
    ensures IsNumeralText(Decimal(n))
  {
    DecimalReads(n);
    DigitIsDigit(n % 10);
    if n >= 10 {
      DecimalIsNumeral(n / 10);
      DecimalReads(n / 10);
    }
  }

  // ---------- values, sections 3 to 5 ----------

  /** The names and numbers. */
  lemma ScalarTexts(n: nat)
    ensures Text(Null) == "null" && Text(Bool(true)) == "true" && Text(Bool(false)) == "false"
    ensures Text(Num(0)) == "0"
    ensures n >= 1 ==> IsNumeralText(Text(Num(n))) && ValueOf(Text(Num(n))) == n && Text(Num(-(n as int))) == ['-'] + Text(Num(n))
  {
    DecimalReads(n);
    if n >= 1 { DecimalIsNumeral(n); }
  }

  lemma StringTexts(s: string)
    ensures Text(Str(s)) == ['"'] + Escape(s) + ['"']
  {
  }

  ghost function Texts(items: seq<Json>): (r: seq<string>)
    ensures |r| == |items|
  {
    seq(|items|, i requires 0 <= i < |items| => Text(items[i]))
  }

  lemma {:induction false} ItemsAreJoined(items: seq<Json>)
    ensures Items(items) == Join(Texts(items), ",")
  {
    if |items| >= 2 {
      ItemsAreJoined(items[1..]);
      assert Texts(items)[1..] == Texts(items[1..]);
    }
  }

  /** An array is its items, joined by commas, in brackets. */
  lemma ArrayText(items: seq<Json>)
    ensures Text(Arr(items)) == "[" + Join(Texts(items), ",") + "]"
  {
    ItemsAreJoined(items);
  }

  ghost function MemberTexts(fields: map<string, Json>, keys: seq<string>): (r: seq<string>)
    requires forall k :: k in keys ==> k in fields
    ensures |r| == |keys|
  {
    seq(|keys|, i requires 0 <= i < |keys| => Text(Str(keys[i])) + ":" + Text(fields[keys[i]]))
  }

  lemma {:induction false} MembersAreJoined(v: Json, keys: seq<string>)
    requires v.Obj? && forall k :: k in keys ==> k in v.fields
    ensures Members(v, keys) == Join(MemberTexts(v.fields, keys), ",")
    decreases |keys|
  {
    if keys != [] {
      MembersAreJoined(v, keys[1..]);
      assert MemberTexts(v.fields, keys)[1..] == MemberTexts(v.fields, keys[1..]);
    }
  }

  lemma BothEmpty(a: seq<string>, b: seq<string>)
    requires forall x :: x in a <==> x in b
    ensures a == [] <==> b == []
  {
    if a != [] { assert a[0] in b; }
    if b != [] { assert b[0] in a; }
  }

  lemma {:induction false} OneAscendingList(a: seq<string>, b: seq<string>)
    requires Ascending(a) && Ascending(b) && forall x :: x in a <==> x in b
    ensures a == b
    decreases |a|
  {
    BothEmpty(a, b);
    if a != [] {
      assert a[0] in b;
      FirstIsLeast(a, b);
      assert a[0] == b[0];
      forall x ensures x in a[1..] <==> x in b[1..] {
        NotAgain(a, x);
        NotAgain(b, x);
      }
      OneAscendingList(a[1..], b[1..]);
    }
  }

  lemma FirstIsLeast(a: seq<string>, b: seq<string>)
    requires Ascending(a) && Ascending(b) && a != [] && b != [] && a[0] in b && b[0] in a
    ensures a[0] == b[0]
  {
    var i :| 0 <= i < |b| && b[i] == a[0];
    var j :| 0 <= j < |a| && a[j] == b[0];
    if i > 0 && j > 0 { BeforeIsStrict(a[0], b[0]); }
  }

  lemma NotAgain(a: seq<string>, x: string)
    requires Ascending(a) && a != []
    ensures x in a[1..] <==> x in a && x != a[0]
  {
    if x in a[1..] {
      var i :| 0 <= i < |a[1..]| && a[1..][i] == x;
      BeforeIsStrict(a[0], a[i + 1]);
    }
  }

  /** An object is its members, each a name, a colon and a value, by ascending name, joined by commas, in
      braces: there is one such list of names. */
  lemma ObjectText(fields: map<string, Json>, keys: seq<string>)
    requires Ascending(keys) && forall k :: k in keys <==> k in fields
    ensures Text(Obj(fields)) == "{" + Join(MemberTexts(fields, keys), ",") + "}"
  {
    OneAscendingList(keys, SortedKeys(fields.Keys));
    MembersAreJoined(Obj(fields), keys);
  }
}
