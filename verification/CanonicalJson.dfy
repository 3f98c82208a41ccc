/** `canonical_json`: JSON text with sorted keys, no spaces and no ASCII escaping, over null,
    booleans, integers, strings, arrays and string-keyed objects.

    The text of a value is a prefix code, so it determines the value: any changed field changes
    what is hashed.  Objects are maps, so the order in which a dict was filled plays no part. */
module CanonicalJson {

  datatype Json =
    | Null
    | Bool(b: bool)
    | Num(n: int)
    | Str(s: string)
    | Arr(items: seq<Json>)
    | Obj(fields: map<string, Json>)

  // ---------- string order and key order ----------

  /** Python's order on strings: by code point, shorter first. */
  predicate Before(a: string, b: string) {
    if a == "" then b != ""
    else b != "" && (a[0] < b[0] || (a[0] == b[0] && Before(a[1..], b[1..])))
  }

  lemma {:induction false} BeforeIsTotal(a: string, b: string)
    ensures Before(a, b) || Before(b, a) || a == b
  {
    if a != "" && b != "" && a[0] == b[0] {
      BeforeIsTotal(a[1..], b[1..]);
      assert a == [a[0]] + a[1..] && b == [b[0]] + b[1..];
    }
  }

  lemma {:induction false} BeforeIsStrict(a: string, b: string)
    requires Before(a, b)
    ensures !Before(b, a) && a != b
  {
    if a != "" && a[0] == b[0] {
      BeforeIsStrict(a[1..], b[1..]);
    }
  }

  lemma {:induction false} BeforeIsTransitive(a: string, b: string, c: string)
    requires Before(a, b) && Before(b, c)
    ensures Before(a, c)
  {
    if a != "" && a[0] == b[0] && b[0] == c[0] {
      BeforeIsTransitive(a[1..], b[1..], c[1..]);
    }
  }

  predicate Ascending(keys: seq<string>) {
    forall i, j :: 0 <= i < j < |keys| ==> Before(keys[i], keys[j])
  }

  function Insert(k: string, keys: seq<string>): seq<string> {
    if keys == [] || Before(k, keys[0]) then [k] + keys else [keys[0]] + Insert(k, keys[1..])
  }

  lemma {:induction false} InsertKeepsOrder(k: string, keys: seq<string>)
    requires Ascending(keys) && k !in keys
    ensures Ascending(Insert(k, keys))
    ensures forall x :: x in Insert(k, keys) <==> x == k || x in keys
  {
    if keys == [] {
    } else if Before(k, keys[0]) {
      forall j | 0 <= j < |keys| ensures Before(k, keys[j]) {
        if j > 0 { BeforeIsTransitive(k, keys[0], keys[j]); }
      }
    } else {
      var rest := Insert(k, keys[1..]);
      InsertKeepsOrder(k, keys[1..]);
      BeforeIsTotal(k, keys[0]);
      forall j | 0 <= j < |rest| ensures Before(keys[0], rest[j]) {
        assert rest[j] in rest;
        if rest[j] != k {
          var i :| 0 <= i < |keys[1..]| && keys[1..][i] == rest[j];
          assert keys[i + 1] == rest[j];
        }
      }
    }
  }

  ghost function SortedKeys(keys: set<string>): (r: seq<string>)
    ensures Ascending(r) && forall k :: k in r <==> k in keys
  {
    if keys == {} then []
    else
      var k :| k in keys;
      InsertKeepsOrder(k, SortedKeys(keys - {k}));
      Insert(k, SortedKeys(keys - {k}))
  }

  // ---------- the text ----------

  function Digit(d: nat): char
    requires d < 10
  {
    ('0' as int + d) as char
  }

  function Decimal(n: nat): string {
    if n < 10 then [Digit(n)] else Decimal(n / 10) + [Digit(n % 10)]
  }

  function NumText(n: int): string { if n < 0 then ['-'] + Decimal(-n) else Decimal(n) }

  function Hex(d: nat): char
    requires d < 16
  {
    if d < 10 then Digit(d) else ('a' as int + d - 10) as char
  }

  /** The escapes of `json.dumps(..., ensure_ascii=False)`; every other character stands for itself. */
  function EscapeChar(c: char): string {
    if c == '"' then ['\\', '"']
    else if c == '\\' then ['\\', '\\']
    else if c == '\n' then ['\\', 'n']
    else if c == '\r' then ['\\', 'r']
    else if c == '\t' then ['\\', 't']
    else if c == '\U{8}' then ['\\', 'b']
    else if c == '\U{c}' then ['\\', 'f']
    else if (c as int) < 32 then ['\\', 'u', '0', '0', Hex((c as int) / 16), Hex((c as int) % 16)]
    else [c]
  }

  function Escape(s: string): string {
    if s == "" then "" else EscapeChar(s[0]) + Escape(s[1..])
  }

  function StrText(s: string): string { ['"'] + Escape(s) + ['"'] }

  ghost function Text(v: Json): string
    decreases v, 1
  {
    match v
    case Null => "null"
    case Bool(b) => if b then "true" else "false"
    case Num(n) => NumText(n)
    case Str(s) => StrText(s)
    case Arr(items) => ['['] + Items(items) + [']']
    case Obj(fields) => ['{'] + Members(v, SortedKeys(fields.Keys)) + ['}']
  }

  ghost function Items(items: seq<Json>): string
    decreases items, 0
  {
    if items == [] then ""
    else if |items| == 1 then Text(items[0])
    else Text(items[0]) + [','] + Items(items[1..])
  }

  ghost function Members(v: Json, keys: seq<string>): string
    requires v.Obj? && forall k :: k in keys ==> k in v.fields
    decreases v, 0, |keys|
  {
    if keys == [] then ""
    else
      var member := StrText(keys[0]) + [':'] + Text(v.fields[keys[0]]);
      if |keys| == 1 then member else member + [','] + Members(v, keys[1..])
  }

  // ---------- decimal numbers ----------

  predicate IsDigit(c: char) { '0' <= c <= '9' }

  function ValueOf(text: string): nat {
    if text == "" then 0
    else
      var last := text[|text| - 1];
      ValueOf(text[..|text| - 1]) * 10 + (if IsDigit(last) then last as int - '0' as int else 0)
  }

  lemma DigitIsDigit(d: nat)
    requires d < 10
    ensures IsDigit(Digit(d)) && Digit(d) as int - '0' as int == d
  {
  }

  lemma {:induction false} DecimalReads(n: nat)
    ensures Decimal(n) != "" && ValueOf(Decimal(n)) == n
    ensures forall i :: 0 <= i < |Decimal(n)| ==> IsDigit(Decimal(n)[i])
  {
    DigitIsDigit(n % 10);
    if n < 10 {
      DigitIsDigit(n);
      assert Decimal(n)[..0] == "";
    } else {
      DecimalReads(n / 10);
      assert Decimal(n)[..|Decimal(n)| - 1] == Decimal(n / 10);
    }
  }

  /** What may follow a value: the end, or one of the closing characters. */
  predicate Ender(r: string) { r == "" || r[0] == ',' || r[0] == ']' || r[0] == '}' }

  function DigitRun(t: string): nat {
    if t != "" && IsDigit(t[0]) then 1 + DigitRun(t[1..]) else 0
  }

  lemma {:induction false} DigitsEndAtEnder(a: string, r: string)
    requires Ender(r) && forall i :: 0 <= i < |a| ==> IsDigit(a[i])
    ensures DigitRun(a + r) == |a|
  {
    if a == "" {
      assert a + r == r;
    } else {
      assert (a + r)[1..] == a[1..] + r;
      DigitsEndAtEnder(a[1..], r);
    }
  }

  lemma Assoc(a: string, b: string, c: string)
    ensures a + b + c == a + (b + c)
  {
  }

  /** Equal concatenations whose left parts have equal length agree part by part. */
  lemma Cancel(a: string, b: string, r: string, s: string)
    requires a + r == b + s && |a| == |b|
    ensures a == b && r == s
  {
    assert a == (a + r)[..|a|] && b == (b + s)[..|b|];
    assert r == (a + r)[|a|..] && s == (b + s)[|b|..];
  }

  lemma DecimalPrefix(m: nat, n: nat, r: string, s: string)
    requires Decimal(m) + r == Decimal(n) + s && Ender(r) && Ender(s)
    ensures m == n && r == s
  {
    DecimalReads(m);
    DecimalReads(n);
    DigitsEndAtEnder(Decimal(m), r);
    DigitsEndAtEnder(Decimal(n), s);
    Cancel(Decimal(m), Decimal(n), r, s);
  }

  lemma NumStarts(n: int, r: string)
    ensures NumText(n) != "" && (NumText(n) + r)[0] == NumText(n)[0]
    ensures n < 0 <==> NumText(n)[0] == '-'
    ensures n >= 0 ==> IsDigit(NumText(n)[0])
    ensures n < 0 ==> (NumText(n) + r)[1..] == Decimal(-n) + r
  {
    if n < 0 {
      DecimalReads(-n);
      AfterSign(Decimal(-n), r);
    } else {
      DecimalReads(n);
    }
  }

  lemma AfterSign(digits: string, r: string)
    ensures (['-'] + digits + r)[1..] == digits + r
  {
  }

  lemma NumPrefix(m: int, n: int, r: string, s: string)
    requires NumText(m) + r == NumText(n) + s && Ender(r) && Ender(s)
    ensures m == n && r == s
  {
    NumStarts(m, r);
    NumStarts(n, s);
    assert NumText(m)[0] == NumText(n)[0];
    if m < 0 {
      assert Decimal(-m) + r == Decimal(-n) + s;
      DecimalPrefix(-m, -n, r, s);
    } else {
      assert Decimal(m) + r == Decimal(n) + s;
      DecimalPrefix(m, n, r, s);
    }
  }

  // ---------- strings ----------

  lemma HexIsInjective(a: nat, b: nat)
    requires a < 16 && b < 16 && Hex(a) == Hex(b)
    ensures a == b
  {
  }

  lemma EscapeCharStarts(c: char)
    ensures EscapeChar(c) != "" && EscapeChar(c)[0] != '"'
    ensures EscapeChar(c)[0] != '\\' ==> EscapeChar(c) == [c]
    ensures EscapeChar(c)[0] == '\\' ==> |EscapeChar(c)| >= 2 && (EscapeChar(c)[1] == 'u' <==> |EscapeChar(c)| == 6)
  {
  }

  /** Two escapes that agree on their first characters are the same escape. */
  lemma EscapeCharPrefix(c: char, d: char, x: string, y: string)
    requires EscapeChar(c) + x == EscapeChar(d) + y
    ensures c == d && x == y
  {
    var u, v := EscapeChar(c), EscapeChar(d);
    EscapeCharStarts(c);
    EscapeCharStarts(d);
    assert u[0] == (u + x)[0] == (v + y)[0] == v[0];
    if u[0] == '\\' {
      assert u[1] == (u + x)[1] == (v + y)[1] == v[1];
      SameLength(c, d);
      Cancel(u, v, x, y);
      SameEscape(c, d);
    } else {
      Cancel(u, v, x, y);
      assert c == u[0] == v[0] == d;
    }
  }

  lemma SameLength(c: char, d: char)
    requires EscapeChar(c)[..1] == EscapeChar(d)[..1] == ['\\']
    requires |EscapeChar(c)| >= 2 && |EscapeChar(d)| >= 2 && EscapeChar(c)[1] == EscapeChar(d)[1]
    ensures |EscapeChar(c)| == |EscapeChar(d)|
  {
  }

  lemma SameEscape(c: char, d: char)
    requires EscapeChar(c) == EscapeChar(d)
    ensures c == d
  {
    if |EscapeChar(c)| == 6 {
      var m, n := c as int, d as int;
      assert EscapeChar(c)[4] == Hex(m / 16) && EscapeChar(c)[5] == Hex(m % 16);
      assert EscapeChar(d)[4] == Hex(n / 16) && EscapeChar(d)[5] == Hex(n % 16);
      HexIsInjective(m / 16, n / 16);
      HexIsInjective(m % 16, n % 16);
    }
  }

  lemma EscapeSplits(a: string, r: string)
    requires a != ""
    ensures Escape(a) + ['"'] + r == EscapeChar(a[0]) + (Escape(a[1..]) + ['"'] + r)
  {
    var e, x := EscapeChar(a[0]), Escape(a[1..]);
    Assoc(e, x, ['"']);
    Assoc(e, x + ['"'], r);
  }

  lemma EscapeStarts(a: string, r: string)
    ensures (Escape(a) + ['"'] + r)[0] == '"' <==> a == ""
    ensures a == "" ==> (Escape(a) + ['"'] + r)[1..] == r
  {
    if a == "" {
      Assoc(Escape(a), ['"'], r);
    } else {
      EscapeCharStarts(a[0]);
      EscapeSplits(a, r);
    }
  }

  /** A closing quote ends the string and nothing else does. */
  lemma {:induction false} EscapePrefix(a: string, b: string, r: string, s: string)
    requires Escape(a) + ['"'] + r == Escape(b) + ['"'] + s
    ensures a == b && r == s
  {
    EscapeStarts(a, r);
    EscapeStarts(b, s);
    if a != "" {
      EscapeSplits(a, r);
      EscapeSplits(b, s);
      EscapeCharPrefix(a[0], b[0], Escape(a[1..]) + ['"'] + r, Escape(b[1..]) + ['"'] + s);
      EscapePrefix(a[1..], b[1..], r, s);
      assert a == [a[0]] + a[1..] && b == [b[0]] + b[1..];
    }
  }

  lemma StrBody(a: string, r: string)
    ensures (StrText(a) + r)[1..] == Escape(a) + ['"'] + r
  {
    Assoc(['"'] + Escape(a), ['"'], r);
    Assoc(['"'], Escape(a), ['"'] + r);
    Assoc(Escape(a), ['"'], r);
  }

  lemma StrPrefix(a: string, b: string, r: string, s: string)
    requires StrText(a) + r == StrText(b) + s
    ensures a == b && r == s
  {
    StrBody(a, r);
    StrBody(b, s);
    EscapePrefix(a, b, r, s);
  }

  // ---------- values ----------

  function Kind(v: Json): nat {
    match v
    case Null => 0
    case Bool(b) => if b then 1 else 2
    case Num(_) => 3
    case Str(_) => 4
    case Arr(_) => 5
    case Obj(_) => 6
  }

  /** The first character of a text tells what kind of value it is. */
  function KindOfStart(c: char): nat {
    if c == 'n' then 0 else if c == 't' then 1 else if c == 'f' then 2
    else if c == '-' || IsDigit(c) then 3 else if c == '"' then 4 else if c == '[' then 5
    else if c == '{' then 6 else 7
  }

  lemma TextStarts(v: Json)
    ensures Text(v) != "" && KindOfStart(Text(v)[0]) == Kind(v)
  {
    if v.Num? {
      DecimalReads(if v.n < 0 then -v.n else v.n);
    }
  }

  lemma Unwrap(c: char, body: string, e: char, r: string)
    ensures ([c] + body + [e] + r)[0] == c && ([c] + body + [e] + r)[1..] == body + ([e] + r)
  {
  }

  /** The text of a value is a prefix code: with what may follow it, it can be read only one way. */
  lemma {:induction false} TextPrefix(a: Json, b: Json, r: string, s: string)
    requires Text(a) + r == Text(b) + s && Ender(r) && Ender(s)
    ensures a == b && r == s
    decreases a, 2
  {
    TextStarts(a);
    TextStarts(b);
    assert Text(a)[0] == (Text(a) + r)[0] == (Text(b) + s)[0] == Text(b)[0];
    assert Kind(a) == Kind(b);
    match a
    case Num(m) => NumPrefix(m, b.n, r, s);
    case Str(x) => StrPrefix(x, b.s, r, s);
    case Arr(_) => ArrPrefix(a, b, r, s);
    case Obj(_) => ObjPrefix(a, b, r, s);
    case _ => Cancel(Text(a), Text(b), r, s);
  }

  lemma {:induction false} ArrPrefix(a: Json, b: Json, r: string, s: string)
    requires a.Arr? && b.Arr? && Text(a) + r == Text(b) + s
    ensures a == b && r == s
    decreases a, 1
  {
    Unwrap('[', Items(a.items), ']', r);
    Unwrap('[', Items(b.items), ']', s);
    ItemsPrefix(a.items, b.items, r, s);
  }

  lemma {:induction false} ObjPrefix(a: Json, b: Json, r: string, s: string)
    requires a.Obj? && b.Obj? && Text(a) + r == Text(b) + s
    ensures a == b && r == s
    decreases a, 1
  {
    var ka, kb := SortedKeys(a.fields.Keys), SortedKeys(b.fields.Keys);
    Unwrap('{', Members(a, ka), '}', r);
    Unwrap('{', Members(b, kb), '}', s);
    MembersPrefix(a, b, ka, kb, r, s);
    SameFields(a.fields, b.fields, ka);
  }

  lemma SameFields(f: map<string, Json>, g: map<string, Json>, keys: seq<string>)
    requires forall k :: k in keys <==> k in f
    requires forall k :: k in keys <==> k in g
    requires forall k :: k in keys ==> f[k] == g[k]
    ensures f == g
  {
    assert f.Keys == g.Keys;
  }

  /** What follows the first of several items: nothing or a comma and the other items. */
  ghost function AfterItem(xs: seq<Json>): string
    requires xs != []
  {
    if |xs| == 1 then "" else [','] + Items(xs[1..])
  }

  lemma ItemsSplit(xs: seq<Json>, r: string)
    requires xs != []
    ensures Items(xs) + r == Text(xs[0]) + (AfterItem(xs) + r)
  {
    if |xs| == 1 {
      assert "" + r == r;
    } else {
      Assoc(Text(xs[0]), [','], Items(xs[1..]));
      Assoc(Text(xs[0]), AfterItem(xs), r);
    }
  }

  lemma ItemsStart(xs: seq<Json>, r: string)
    ensures (Items(xs) + ([']'] + r))[0] == ']' <==> xs == []
    ensures xs == [] ==> (Items(xs) + ([']'] + r))[1..] == r
  {
    if xs == [] {
      assert Items(xs) + ([']'] + r) == [']'] + r;
    } else {
      TextStarts(xs[0]);
      ItemsSplit(xs, [']'] + r);
    }
  }

  lemma AfterItemStart(xs: seq<Json>, r: string)
    requires xs != []
    ensures var t := AfterItem(xs) + ([']'] + r);
            && t[0] == (if |xs| == 1 then ']' else ',')
            && t[1..] == if |xs| == 1 then r else Items(xs[1..]) + ([']'] + r)
  {
  }

  lemma {:induction false} ItemsPrefix(xs: seq<Json>, ys: seq<Json>, r: string, s: string)
    requires Items(xs) + ([']'] + r) == Items(ys) + ([']'] + s)
    ensures xs == ys && r == s
    decreases xs, 0
  {
    ItemsStart(xs, r);
    ItemsStart(ys, s);
    if xs != [] {
      ItemsSplit(xs, [']'] + r);
      ItemsSplit(ys, [']'] + s);
      AfterItemStart(xs, r);
      AfterItemStart(ys, s);
      TextPrefix(xs[0], ys[0], AfterItem(xs) + ([']'] + r), AfterItem(ys) + ([']'] + s));
      if |xs| > 1 {
        ItemsPrefix(xs[1..], ys[1..], r, s);
      }
      SameFromParts(xs, ys);
    }
  }

  lemma SameFromParts(xs: seq<Json>, ys: seq<Json>)
    requires xs != [] && ys != [] && xs[0] == ys[0] && xs[1..] == ys[1..]
    ensures xs == ys
  {
    assert xs == [xs[0]] + xs[1..] && ys == [ys[0]] + ys[1..];
  }

  ghost predicate KeysOf(v: Json, keys: seq<string>) {
    v.Obj? && forall k :: k in keys ==> k in v.fields
  }

  ghost function AfterMember(v: Json, keys: seq<string>): string
    requires KeysOf(v, keys) && keys != []
  {
    if |keys| == 1 then "" else [','] + Members(v, keys[1..])
  }

  lemma MembersSplit(v: Json, keys: seq<string>, r: string)
    requires KeysOf(v, keys) && keys != []
    ensures var k, t := StrText(keys[0]), Text(v.fields[keys[0]]);
            Members(v, keys) + r == k + ([':'] + (t + (AfterMember(v, keys) + r)))
  {
    var k, t := StrText(keys[0]), Text(v.fields[keys[0]]);
    if |keys| == 1 {
      assert "" + r == r;
    } else {
      Assoc(k + [':'] + t, [','], Members(v, keys[1..]));
      Assoc(k + [':'] + t, AfterMember(v, keys), r);
    }
    Assoc(k + [':'], t, AfterMember(v, keys) + r);
    Assoc(k, [':'], t + (AfterMember(v, keys) + r));
  }

  lemma MembersStart(v: Json, keys: seq<string>, r: string)
    requires KeysOf(v, keys)
    ensures (Members(v, keys) + (['}'] + r))[0] == '}' <==> keys == []
    ensures keys == [] ==> (Members(v, keys) + (['}'] + r))[1..] == r
  {
    if keys == [] {
      assert Members(v, keys) + (['}'] + r) == ['}'] + r;
    } else {
      MembersSplit(v, keys, ['}'] + r);
      assert StrText(keys[0])[0] == '"';
    }
  }

  lemma AfterMemberStart(v: Json, keys: seq<string>, r: string)
    requires KeysOf(v, keys) && keys != []
    ensures var t := AfterMember(v, keys) + (['}'] + r);
            && t[0] == (if |keys| == 1 then '}' else ',')
            && t[1..] == if |keys| == 1 then r else Members(v, keys[1..]) + (['}'] + r)
  {
  }

  lemma {:induction false} MembersPrefix(a: Json, b: Json, ka: seq<string>, kb: seq<string>, r: string, s: string)
    requires KeysOf(a, ka) && KeysOf(b, kb)
    requires Members(a, ka) + (['}'] + r) == Members(b, kb) + (['}'] + s)
    ensures ka == kb && r == s
    ensures forall k :: k in ka ==> a.fields[k] == b.fields[k]
    decreases a, 0, |ka|
  {
    MembersStart(a, ka, r);
    MembersStart(b, kb, s);
    if ka != [] {
      var x, y := AfterMember(a, ka) + (['}'] + r), AfterMember(b, kb) + (['}'] + s);
      MembersSplit(a, ka, ['}'] + r);
      MembersSplit(b, kb, ['}'] + s);
      AfterMemberStart(a, ka, r);
      AfterMemberStart(b, kb, s);
      var va, vb := a.fields[ka[0]], b.fields[kb[0]];
      StrPrefix(ka[0], kb[0], [':'] + (Text(va) + x), [':'] + (Text(vb) + y));
      assert ([':'] + (Text(va) + x))[1..] == Text(va) + x && ([':'] + (Text(vb) + y))[1..] == Text(vb) + y;
      TextPrefix(va, vb, x, y);
      if |ka| > 1 {
        MembersPrefix(a, b, ka[1..], kb[1..], r, s);
      }
      assert ka == [ka[0]] + ka[1..] && kb == [kb[0]] + kb[1..];
    }
  }
  /** Equal texts, equal values. */
  lemma TextIsInjective(a: Json, b: Json)
    ensures Text(a) == Text(b) <==> a == b
  {
    if Text(a) == Text(b) {
      assert Text(a) + "" == Text(b) + "";
      TextPrefix(a, b, "", "");
    }
  }
}
