/** The fragment of JavaScript's value model that the application relies on:
    loosely typed record fields, strict equality `===`, truthiness, object spread,
    `String.prototype.trim` and ASCII case mapping. */
module Js {
  import opened Wrappers

  /** A JSON-like value. Numbers are the integers the application stores (record
      Ids, orders, counts); `Other` stands for values the model never inspects
      (dates, functions, nested objects). */
  datatype Value =
    | Undef
    | Null
    | Bool(b: bool)
    | Num(n: int)
    | Str(s: string)
    | Arr(items: seq<Value>)
    | Other

  /** A plain object: field name to value. A missing field reads as `undefined`. */
  type Object = map<string, Value>

  /** Property access `o.key`. */
  function Get(o: Object, key: string): (v: Value)
    ensures key !in o ==> v == Undef
    ensures key in o ==> v == o[key]
  {
    if key in o then o[key] else Undef
  }

  /** `Boolean(v)`: the values an `if`, `||` or `!` treat as true. */
  predicate Truthy(v: Value) {
    match v
    case Undef => false
    case Null => false
    case Bool(b) => b
    case Num(n) => n != 0
    case Str(s) => s != ""
    case Arr(_) => true
    case Other => true
  }

  /** `n.toString()` for an integer: an optional minus sign, then decimal digits with no
      leading zero. */
  function Decimal(n: int): (r: string)
    ensures r != ""
    ensures n >= 0 ==> forall i :: 0 <= i < |r| ==> '0' <= r[i] <= '9'
    decreases if n < 0 then 1 - n else n
  {
    if n < 0 then "-" + Decimal(-n)
    else if n < 10 then [(48 + n) as char]
    else Decimal(n / 10) + [(48 + n % 10) as char]
  }

  /** The value of a string of decimal digits. */
  function DigitsValue(s: string): (n: nat)
    requires forall i :: 0 <= i < |s| ==> '0' <= s[i] <= '9'
  {
    if s == [] then 0 else DigitsValue(s[..|s| - 1]) * 10 + (s[|s| - 1] as int - 48)
  }

  /** Reading the digits back gives the number: the decimal text of a natural number
      loses nothing. */
  lemma {:induction false} DecimalRoundTrip(n: nat)
    ensures DigitsValue(Decimal(n)) == n
    decreases n
  {
    if n >= 10 {
      DecimalRoundTrip(n / 10);
      var d := Decimal(n);
      assert d[..|d| - 1] == Decimal(n / 10);
    }
  }

  /** `v.toString()`: `undefined` and `null` throw a TypeError (`None`); an array joins its
      elements with commas, writing `undefined` and `null` elements as empty text. */
  function ToText(v: Value): (r: Option<string>)
    ensures r.None? <==> v.Undef? || v.Null?
    ensures v.Str? ==> r == Some(v.s)
    ensures v.Num? ==> r == Some(Decimal(v.n))
    decreases v, 1
  {
    match v
    case Undef => None
    case Null => None
    case Bool(b) => Some(if b then "true" else "false")
    case Num(n) => Some(Decimal(n))
    case Str(s) => Some(s)
    case Arr(items) => Some(JoinText(items))
    case Other => Some("[object Object]")
  }

  /** `items.join(",")`. */
  function JoinText(items: seq<Value>): string
    decreases items, 0
  {
    if items == [] then ""
    else
      var head := if items[0].Undef? || items[0].Null? then "" else ToText(items[0]).value;
      if |items| == 1 then head else head + "," + JoinText(items[1..])
  }

  /** Object spread `{ ...a, ...b }`: every field of `b` wins over the same field of `a`. */
  function Spread(a: Object, b: Object): (r: Object)
    ensures r.Keys == a.Keys + b.Keys
    ensures forall k :: k in b ==> Get(r, k) == b[k]
    ensures forall k :: k in a && k !in b ==> Get(r, k) == a[k]
  {
    a + b
  }

  /** The characters `trim` removes: ECMAScript WhiteSpace and LineTerminator. */
  predicate IsWhitespace(c: char) {
    c == ' ' || c == '\t' || c == '\n' || c == '\r' || c == '\U{000B}' || c == '\U{000C}'
    || c == '\U{00A0}' || c == '\U{FEFF}' || c == '\U{1680}' || ('\U{2000}' <= c <= '\U{200A}')
    || c == '\U{2028}' || c == '\U{2029}' || c == '\U{202F}' || c == '\U{205F}' || c == '\U{3000}'
  }

  function TrimStart(s: string): (r: string)
    ensures |r| <= |s| && r == s[|s| - |r|..]
    ensures r == [] || !IsWhitespace(r[0])
    ensures forall i :: 0 <= i < |s| - |r| ==> IsWhitespace(s[i])
  {
    if s != [] && IsWhitespace(s[0]) then TrimStart(s[1..]) else s
  }

  function TrimEnd(s: string): (r: string)
    ensures |r| <= |s| && r == s[..|r|]
    ensures r == [] || !IsWhitespace(r[|r| - 1])
    ensures forall i :: |r| <= i < |s| ==> IsWhitespace(s[i])
  {
    if s != [] && IsWhitespace(s[|s| - 1]) then TrimEnd(s[..|s| - 1]) else s
  }

  /** A string is blank when it is empty or made of whitespace only. */
  predicate Blank(s: string) {
    forall i :: 0 <= i < |s| ==> IsWhitespace(s[i])
  }

  /** `t` occurs in `s` as one contiguous piece. */
  predicate Infix(t: string, s: string) {
    exists a :: 0 <= a <= |s| && t <= s[a..]
  }

  /** A non-empty string with no whitespace at either end. */
  predicate Edged(r: string) {
    r != "" && !IsWhitespace(r[0]) && !IsWhitespace(r[|r| - 1])
  }

  /** `r` is `s` with whitespace, and only whitespace, taken off its two ends. */
  ghost predicate Stripped(r: string, s: string) {
    exists a :: 0 <= a <= |s| - |r| && r == s[a..a + |r|] && Blank(s[..a]) && Blank(s[a + |r|..])
  }

  /** `s.trim()`: empty exactly for blank input, otherwise the input with the whitespace
      at its two ends taken off, leaving no whitespace at either end. */
  function Trim(s: string): (r: string)
    ensures r == "" <==> Blank(s)
    ensures r != "" ==> Edged(r)
    ensures Infix(r, s)
    ensures Stripped(r, s)
  {
    TrimFacts(s);
    TrimStripped(s);
    TrimEnd(TrimStart(s))
  }

  lemma {:induction false} TrimFacts(s: string)
    ensures TrimEnd(TrimStart(s)) == "" <==> Blank(s)
    ensures TrimEnd(TrimStart(s)) != "" ==> Edged(TrimEnd(TrimStart(s)))
    ensures Infix(TrimEnd(TrimStart(s)), s)
  {
    var t := TrimStart(s);
    var r := TrimEnd(t);
    var a := |s| - |t|;
    assert r <= s[a..];
    if t == [] {
      assert Blank(s);
    } else {
      assert !IsWhitespace(t[0]);
      assert r != [];
      assert r[0] == t[0];
      assert !Blank(s) by {
        assert s[a] == t[0];
      }
    }
  }

  /** The trimmed text sits in the input between a blank head and a blank tail. */
  lemma TrimStripped(s: string)
    ensures Stripped(TrimEnd(TrimStart(s)), s)
  {
    var t := TrimStart(s);
    var r := TrimEnd(t);
    var a := |s| - |t|;
    HeadBlank(s, t);
    TailBlank(s, a, t, r);
    StrippedAt(r, s, a);
  }

  /** What a whitespace-led prefix leaves behind: the prefix is blank. */
  lemma HeadBlank(s: string, t: string)
    requires |t| <= |s| && t == s[|s| - |t|..]
    requires forall i :: 0 <= i < |s| - |t| ==> IsWhitespace(s[i])
    ensures Blank(s[..|s| - |t|])
  {
    var a := |s| - |t|;
    forall i | 0 <= i < a
      ensures IsWhitespace(s[..a][i])
    {
      assert s[..a][i] == s[i];
    }
  }

  /** A piece cut from the front of `s[a..]`, followed by whitespace only, sits in `s` at
      `a` with a blank tail. */
  lemma TailBlank(s: string, a: nat, t: string, r: string)
    requires a <= |s| && t == s[a..] && |r| <= |t| && r == t[..|r|]
    requires forall i :: |r| <= i < |t| ==> IsWhitespace(t[i])
    ensures r == s[a..a + |r|]
    ensures Blank(s[a + |r|..])
  {
    forall j | a + |r| <= j < |s|
      ensures IsWhitespace(s[j])
    {
      assert s[j] == t[j - a];
    }
  }

  lemma StrippedAt(r: string, s: string, a: nat)
    requires a + |r| <= |s| && r == s[a..a + |r|] && Blank(s[..a]) && Blank(s[a + |r|..])
    ensures Stripped(r, s)
  {}

  /** `TrimStart` stops at the first non-whitespace character. */
  lemma {:induction false} TrimStartAt(s: string, a: nat)
    requires a <= |s| && Blank(s[..a]) && (a == |s| || !IsWhitespace(s[a]))
    ensures TrimStart(s) == s[a..]
    decreases a
  {
    if a > 0 {
      assert IsWhitespace(s[..a][0]);
      assert s[1..][..a - 1] == s[1..a];
      TrimStartAt(s[1..], a - 1);
    }
  }

  /** `TrimEnd` stops at the last non-whitespace character. */
  lemma {:induction false} TrimEndAt(t: string, e: nat)
    requires e <= |t| && Blank(t[e..]) && (e == 0 || !IsWhitespace(t[e - 1]))
    ensures TrimEnd(t) == t[..e]
    decreases |t| - e
  {
    if e < |t| {
      assert IsWhitespace(t[e..][|t| - 1 - e]);
      var u := t[..|t| - 1];
      assert u[e..] == t[e..|t| - 1];
      TrimEndAt(u, e);
      assert u[..e] == t[..e];
    }
  }

  /** `Trim` is the only way to strip: any whitespace-stripped piece of `s` that is empty
      or has no whitespace at either end is `Trim(s)`. */
  lemma StrippedIsTrim(s: string, r: string)
    requires Stripped(r, s) && (r == "" || Edged(r))
    ensures r == Trim(s)
  {
    var a :| 0 <= a <= |s| - |r| && r == s[a..a + |r|] && Blank(s[..a]) && Blank(s[a + |r|..]);
    if r == "" {
      BlankParts(s, a);
    } else {
      EdgedPiece(s, r, a);
    }
  }

  lemma BlankParts(s: string, a: nat)
    requires a <= |s| && Blank(s[..a]) && Blank(s[a..])
    ensures Trim(s) == ""
  {
    assert s == s[..a] + s[a..];
  }

  lemma EdgedPiece(s: string, r: string, a: nat)
    requires a + |r| <= |s| && r == s[a..a + |r|] && Blank(s[..a]) && Blank(s[a + |r|..]) && Edged(r)
    ensures TrimEnd(TrimStart(s)) == r
  {
    var t := s[a..];
    assert TrimStart(s) == t by {
      assert s[a] == r[0];
      TrimStartAt(s, a);
    }
    SliceOfSlice(s, a, |r|);
    EdgedEnd(t, r);
  }

  lemma SliceOfSlice(s: string, a: nat, n: nat)
    requires a + n <= |s|
    ensures s[a..][..n] == s[a..a + n] && s[a..][n..] == s[a + n..]
  {}

  /** A text that is an edged piece followed by whitespace trims at its end to the piece. */
  lemma EdgedEnd(t: string, r: string)
    requires |r| <= |t| && t[..|r|] == r && Blank(t[|r|..]) && Edged(r)
    ensures TrimEnd(t) == r
  {
    assert t[|r| - 1] == r[|r| - 1];
    TrimEndAt(t, |r|);
  }

  /** Trimming twice trims no more. */
  lemma TrimIdempotent(s: string)
    ensures Trim(Trim(s)) == Trim(s)
  {}

  /** ASCII `toUpperCase` for one character; other characters are left as they are. */
  function UpperChar(c: char): (r: char)
    ensures 'a' <= c <= 'z' ==> 'A' <= r <= 'Z'
    ensures !('a' <= c <= 'z') ==> r == c
  {
    if 'a' <= c <= 'z' then (c as int - 32) as char else c
  }

  /** ASCII `toLowerCase` for one character; other characters are left as they are. */
  function LowerChar(c: char): (r: char)
    ensures 'A' <= c <= 'Z' ==> 'a' <= r <= 'z'
    ensures !('A' <= c <= 'Z') ==> r == c
  {
    if 'A' <= c <= 'Z' then (c as int + 32) as char else c
  }

  function ToUpper(s: string): (r: string)
    ensures |r| == |s|
    ensures forall i :: 0 <= i < |s| ==> r[i] == UpperChar(s[i])
  {
    seq(|s|, i requires 0 <= i < |s| => UpperChar(s[i]))
  }

  function ToLower(s: string): (r: string)
    ensures |r| == |s|
    ensures forall i :: 0 <= i < |s| ==> r[i] == LowerChar(s[i])
  {
    seq(|s|, i requires 0 <= i < |s| => LowerChar(s[i]))
  }
}
