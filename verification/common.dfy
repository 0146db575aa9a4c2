/** Small value types and string helpers shared by the other modules: optional
    values, results, prefix/suffix tests, ASCII lower-casing, and the decimal
    numerals that both the collision suffixes (`+1`, `+2`, ...) and the
    JavaScript `Number.parseInt` model are built on. */
module Common {

  /** A value that may be absent (`null`/`undefined` in the program). */
  datatype Option<+T> = None | Some(value: T) {
    function GetOr(default: T): T {
      match this
      case Some(v) => v
      case None => default
    }
  }

  /** The outcome of an operation that can throw. */
  datatype Result<+T, +E> = Ok(value: T) | Err(error: E)

  /** What a background job reports when it returns normally. */
  datatype JobStatus = Success | Skipped | Failed

  /** JavaScript truthiness of an optional string: present and non-empty. */
  predicate Truthy(s: Option<string>) {
    s.Some? && |s.value| > 0
  }

  predicate StartsWith(s: string, prefix: string) {
    |prefix| <= |s| && s[..|prefix|] == prefix
  }

  predicate EndsWith(s: string, suffix: string) {
    |suffix| <= |s| && s[|s| - |suffix|..] == suffix
  }

  lemma PrefixOfJoin(a: string, b: string)
    ensures StartsWith(a + b, a)
  {
    assert (a + b)[..|a|] == a;
  }

  lemma StartsWithTrans(s: string, t: string, p: string)
    requires StartsWith(s, t) && StartsWith(t, p)
    ensures StartsWith(s, p)
  {
    assert s[..|p|] == s[..|t|][..|p|];
  }

  /** `sub` occurs somewhere in `s` (JavaScript `String.prototype.includes`). */
  predicate Contains(s: string, sub: string)
    decreases |s|
  {
    |sub| <= |s| && (s[..|sub|] == sub || (|s| > 0 && Contains(s[1..], sub)))
  }

  lemma {:induction false} ContainsAt(s: string, sub: string, i: nat)
    requires i + |sub| <= |s|
    requires s[i..i + |sub|] == sub
    ensures Contains(s, sub)
    decreases i
  {
    if i > 0 {
      assert s[1..][i - 1..i - 1 + |sub|] == sub;
      ContainsAt(s[1..], sub, i - 1);
    }
  }

  lemma {:induction false} ContainsWitness(s: string, sub: string) returns (i: nat)
    requires Contains(s, sub)
    ensures i + |sub| <= |s| && s[i..i + |sub|] == sub
    decreases |s|
  {
    if s[..|sub|] == sub {
      i := 0;
    } else {
      var j := ContainsWitness(s[1..], sub);
      assert s[1..][j..j + |sub|] == s[j + 1..j + 1 + |sub|];
      i := j + 1;
    }
  }

  function LowerChar(c: char): char {
    if 'A' <= c <= 'Z' then (c as int + 32) as char else c
  }

  /** ASCII lower-casing (`toLowerCase` restricted to A-Z). */
  function ToLower(s: string): (r: string)
    ensures |r| == |s|
    ensures forall i :: 0 <= i < |s| ==> r[i] == LowerChar(s[i])
  {
    if |s| == 0 then [] else [LowerChar(s[0])] + ToLower(s[1..])
  }

  /** Lower-casing twice is lower-casing once. */
  lemma ToLowerIdempotent(s: string)
    ensures ToLower(ToLower(s)) == ToLower(s)
  {
    var t := ToLower(s);
    assert forall i :: 0 <= i < |t| ==> ToLower(t)[i] == t[i];
  }

  /** A lower-cased string ends in `c` exactly when its last character
      lower-cases to `c`. */
  lemma LowerEndsWith(s: string, c: char)
    requires |s| > 0
    ensures EndsWith(ToLower(s), [c]) <==> LowerChar(s[|s| - 1]) == c
  {
    var t := ToLower(s);
    var last := t[|t| - 1];
    assert last == LowerChar(s[|s| - 1]);
    assert t[|t| - 1..] == [last];
    assert [last] == [c] <==> last == c;
    assert EndsWith(t, [c]) <==> t[|t| - 1..] == [c];
  }

  predicate IsDigit(c: char) {
    '0' <= c <= '9'
  }

  predicate AllDigits(s: string) {
    forall i :: 0 <= i < |s| ==> IsDigit(s[i])
  }

  function DigitChar(d: nat): (c: char)
    requires d < 10
    ensures IsDigit(c)
  {
    (48 + d) as char
  }

  function DigitValue(c: char): (d: nat)
    requires IsDigit(c)
    ensures d < 10
  {
    c as int - 48
  }

  /** The decimal numeral of `n`, without leading zeros (JavaScript `${n}`). */
  function NatToString(n: nat): (s: string)
    ensures |s| > 0 && AllDigits(s)
    decreases n
  {
    if n < 10 then [DigitChar(n)] else NatToString(n / 10) + [DigitChar(n % 10)]
  }

  /** The value of a string of decimal digits. */
  function DigitsValue(s: string): nat
    requires AllDigits(s)
  {
    if |s| == 0 then 0 else DigitsValue(s[..|s| - 1]) * 10 + DigitValue(s[|s| - 1])
  }

  lemma {:induction false} NatToStringRoundTrip(n: nat)
    ensures DigitsValue(NatToString(n)) == n
    decreases n
  {
    var s := NatToString(n);
    if n >= 10 {
      assert s[..|s| - 1] == NatToString(n / 10);
      NatToStringRoundTrip(n / 10);
    }
  }

  /** Different numbers have different numerals, so `+1`, `+2`, ... never collide. */
  lemma NatToStringInjective(m: nat, n: nat)
    requires NatToString(m) == NatToString(n)
    ensures m == n
  {
    NatToStringRoundTrip(m);
    NatToStringRoundTrip(n);
  }

  /** The longest prefix of `s` made of decimal digits. */
  function DigitPrefix(s: string): (d: string)
    ensures AllDigits(d) && StartsWith(s, d)
    ensures |d| < |s| ==> !IsDigit(s[|d|])
  {
    if |s| > 0 && IsDigit(s[0]) then [s[0]] + DigitPrefix(s[1..]) else []
  }

  lemma {:induction false} DigitPrefixOf(d: string, rest: string)
    requires AllDigits(d)
    requires |rest| == 0 || !IsDigit(rest[0])
    ensures DigitPrefix(d + rest) == d
    decreases |d|
  {
    if |d| > 0 {
      assert (d + rest)[1..] == d[1..] + rest;
      DigitPrefixOf(d[1..], rest);
    } else {
      assert d + rest == rest;
    }
  }

  /** The position of the last `c` in `s` (JavaScript `lastIndexOf`). */
  function LastIndexOf(s: string, c: char): (r: Option<nat>)
    ensures r.None? ==> c !in s
    ensures r.Some? ==> r.value < |s| && s[r.value] == c && c !in s[r.value + 1..]
  {
    if |s| == 0 then None
    else if s[|s| - 1] == c then Some(|s| - 1)
    else
      var r := LastIndexOf(s[..|s| - 1], c);
      assert r.Some? ==> s[r.value + 1..] == s[..|s| - 1][r.value + 1..] + [s[|s| - 1]];
      assert s == s[..|s| - 1] + [s[|s| - 1]];
      r
  }

  lemma LastIndexOfUnique(s: string, c: char, i: nat)
    requires i < |s| && s[i] == c && c !in s[i + 1..]
    ensures LastIndexOf(s, c) == Some(i)
  {
    assert s[i] in s;
  }

  /** ECMAScript white space and line terminators, the characters `trim` and
      `parseInt` skip: tab, line feed, vertical tab, form feed, carriage
      return, the space separators of Unicode category Zs, the line and
      paragraph separators and the byte-order mark. */
  predicate IsSpace(c: char) {
    || c == '\t' || c == '\n' || c == '\U{000B}' || c == '\U{000C}' || c == '\r'
    || c == ' ' || c == '\U{00A0}' || c == '\U{1680}' || ('\U{2000}' <= c <= '\U{200A}')
    || c == '\U{2028}' || c == '\U{2029}' || c == '\U{202F}' || c == '\U{205F}' || c == '\U{3000}'
    || c == '\U{FEFF}'
  }

  function TrimStart(s: string): (t: string)
    ensures EndsWith(s, t)
    ensures |t| == 0 || !IsSpace(t[0])
  {
    if |s| > 0 && IsSpace(s[0]) then
      var t := TrimStart(s[1..]);
      assert s[|s| - |t|..] == s[1..][|s| - 1 - |t|..];
      t
    else s
  }

  /** JavaScript `Number.parseInt(s)` with no radix: leading white space is
      skipped and an optional sign read; a `0x` or `0X` prefix then selects
      base 16, and otherwise base 10 applies; the longest run of digits of
      that base is the value. `None` stands for `NaN` (no digit where one was
      expected). */
  function ParseInt(s: string): (r: Option<int>)
    ensures var u := SignFree(TrimStart(s));
      r.None? <==> (if HexPrefixed(u) then |HexDigitPrefix(u[2..])| == 0 else |DigitPrefix(u)| == 0)
    ensures r.Some? && !HexPrefixed(SignFree(TrimStart(s))) ==>
      var t := TrimStart(s);
      r.value == (if |t| > 0 && t[0] == '-' then -1 else 1) * DigitsValue(DigitPrefix(SignFree(t)))
  {
    var t := TrimStart(s);
    var u := SignFree(t);
    var sign := if |t| > 0 && t[0] == '-' then -1 else 1;
    if HexPrefixed(u) then
      var digits := HexDigitPrefix(u[2..]);
      if |digits| == 0 then None else Some(sign * HexValue(digits))
    else
      var digits := DigitPrefix(u);
      if |digits| == 0 then None else Some(sign * DigitsValue(digits))
  }

  /** `t` with one leading `+` or `-` removed. */
  function SignFree(t: string): string {
    if |t| > 0 && (t[0] == '-' || t[0] == '+') then t[1..] else t
  }

  /** `u` starts with the `0x` or `0X` that makes `parseInt` read base 16. */
  predicate HexPrefixed(u: string) {
    |u| >= 2 && u[0] == '0' && (u[1] == 'x' || u[1] == 'X')
  }

  predicate IsHexDigit(c: char) {
    IsDigit(c) || 'a' <= c <= 'f' || 'A' <= c <= 'F'
  }

  function HexDigitValue(c: char): (d: nat)
    requires IsHexDigit(c)
    ensures d < 16
  {
    if IsDigit(c) then DigitValue(c) else if 'a' <= c <= 'f' then c as int - 87 else c as int - 55
  }

  /** The longest prefix of `s` made of hexadecimal digits. */
  function HexDigitPrefix(s: string): (d: string)
    ensures StartsWith(s, d) && forall i :: 0 <= i < |d| ==> IsHexDigit(d[i])
    ensures |d| < |s| ==> !IsHexDigit(s[|d|])
  {
    if |s| > 0 && IsHexDigit(s[0]) then [s[0]] + HexDigitPrefix(s[1..]) else []
  }

  function HexValue(s: string): nat
    requires forall i :: 0 <= i < |s| ==> IsHexDigit(s[i])
  {
    if |s| == 0 then 0 else HexValue(s[..|s| - 1]) * 16 + HexDigitValue(s[|s| - 1])
  }

  /** `parseInt` reads a `0x` numeral in base 16 and stops at the first
      character that is not a hexadecimal digit. */
  lemma ParseIntReadsHex()
    ensures ParseInt("0x1F") == Some(31)
  {
    var s := "0x1F";
    assert s[2..] == "1F";
    HexPairPrefix('1', 'F', "");
    HexValueTwo('1', 'F');
    ParseIntHex(s);
  }

  lemma HexPairPrefix(hi: char, lo: char, rest: string)
    requires IsHexDigit(hi) && IsHexDigit(lo) && (|rest| == 0 || !IsHexDigit(rest[0]))
    ensures HexDigitPrefix([hi, lo] + rest) == [hi, lo]
  {
    HexPrefixOfDigits([hi, lo], rest);
  }

  lemma HexValueTwo(hi: char, lo: char)
    requires IsHexDigit(hi) && IsHexDigit(lo)
    ensures HexValue([hi, lo]) == HexDigitValue(hi) * 16 + HexDigitValue(lo)
  {
    var s := [hi, lo];
    assert s[..|s| - 1] == [hi] && s[|s| - 1] == lo;
    assert [hi][..0] == [];
    assert HexValue([hi]) == HexValue([]) * 16 + HexDigitValue(hi);
  }

  /** A hex prefix with no hexadecimal digit after it is `NaN`, even though
      its `0` is a decimal digit. */
  lemma ParseIntEmptyHex()
    ensures ParseInt("0xg") == None
  {
    var g := "0xg";
    assert g[2..] == "g";
    NoHexPrefix('g');
    ParseIntHex(g);
  }

  lemma NoHexPrefix(c: char)
    requires !IsHexDigit(c)
    ensures HexDigitPrefix([c]) == []
  {
  }

  /** Unicode white space (any `IsSpace` character) and a `-` sign come
      before the hex prefix: `"\U{00A0}-0X10k"` reads as -16. */
  lemma ParseIntSkipsSpaceBeforeHex(c: char, u: string)
    requires IsSpace(c) && HexPrefixed(u)
    ensures var d := HexDigitPrefix(u[2..]); var v := 0 - HexValue(d) as int;
      ParseInt([c, '-'] + u) == if |d| == 0 then None else Some(v)
  {
    assert [c, '-'] + u == [c] + (['-'] + u);
    ParseIntSkipsSpace(c, ['-'] + u);
    ParseIntNegativeHex(u);
  }

  /** Leading white space does not change what `parseInt` reads. */
  lemma ParseIntSkipsSpace(c: char, s: string)
    requires IsSpace(c)
    ensures ParseInt([c] + s) == ParseInt(s)
  {
    assert ([c] + s)[1..] == s;
    assert TrimStart([c] + s) == TrimStart(s);
  }

  /** A `-` before a hex prefix negates the base-16 value. */
  lemma ParseIntNegativeHex(u: string)
    requires HexPrefixed(u)
    ensures var d := HexDigitPrefix(u[2..]); var v := 0 - HexValue(d) as int;
      ParseInt(['-'] + u) == if |d| == 0 then None else Some(v)
  {
    var t := ['-'] + u;
    assert !IsSpace(t[0]);
    assert TrimStart(t) == t;
    assert SignFree(t) == u;
  }

  /** The hex prefix of hex digits followed by a non-hex character is those
      digits. */
  lemma {:induction false} HexPrefixOfDigits(d: string, rest: string)
    requires forall i :: 0 <= i < |d| ==> IsHexDigit(d[i])
    requires |rest| == 0 || !IsHexDigit(rest[0])
    ensures HexDigitPrefix(d + rest) == d
    decreases |d|
  {
    if |d| > 0 {
      assert (d + rest)[1..] == d[1..] + rest;
      HexPrefixOfDigits(d[1..], rest);
    } else {
      assert d + rest == rest;
    }
  }

  /** A hex-prefixed string with no white space or sign is read in base 16
      after the prefix. */
  lemma ParseIntHex(s: string)
    requires HexPrefixed(s)
    ensures var d := HexDigitPrefix(s[2..]);
      ParseInt(s) == if |d| == 0 then None else Some(HexValue(d))
  {
    assert !IsSpace(s[0]);
    assert TrimStart(s) == s;
    assert SignFree(s) == s;
  }

  /** A numeral followed by anything that is not a digit parses back to its
      value, unless the numeral `0` is followed by the `x` of a hex prefix. */
  lemma ParseIntNumeral(n: nat, rest: string)
    requires |rest| == 0 || !IsDigit(rest[0])
    requires n != 0 || |rest| == 0 || (rest[0] != 'x' && rest[0] != 'X')
    ensures ParseInt(NatToString(n) + rest) == Some(n)
  {
    var s := NatToString(n) + rest;
    assert s[0] == NatToString(n)[0];
    if n >= 10 {
      assert s[1] == NatToString(n)[1];
    } else if n > 0 {
      assert s[0] == DigitChar(n);
    }
    ParseIntDecimal(s);
    DigitPrefixOf(NatToString(n), rest);
    NatToStringRoundTrip(n);
  }

  /** A string that starts with a digit and no hex prefix is read in base 10
      from its first character. */
  lemma ParseIntDecimal(s: string)
    requires |s| > 0 && IsDigit(s[0]) && !HexPrefixed(s)
    ensures ParseInt(s) == Some(DigitsValue(DigitPrefix(s)))
  {
    assert !IsSpace(s[0]);
    assert TrimStart(s) == s;
    assert SignFree(s) == s;
  }

  /** The elements of `xs` that satisfy `keep`, each mapped by `f`, in order
      (`xs.filter(keep).map(f)`). */
  function FilterMap<A, B>(xs: seq<A>, keep: A -> bool, f: A -> B): (ys: seq<B>)
    ensures |ys| <= |xs|
  {
    if |xs| == 0 then []
    else (if keep(xs[0]) then [f(xs[0])] else []) + FilterMap(xs[1..], keep, f)
  }

  /** `FilterMap` works element by element: the result for a concatenation is
      the concatenation of the results. With `FilterMapSingle` this fixes the
      result as exactly the kept elements' images, in input order. */
  lemma {:induction false} FilterMapAppend<A, B>(xs: seq<A>, ys: seq<A>, keep: A -> bool, f: A -> B)
    ensures FilterMap(xs + ys, keep, f) == FilterMap(xs, keep, f) + FilterMap(ys, keep, f)
    decreases |xs|
  {
    if |xs| > 0 {
      assert (xs + ys)[1..] == xs[1..] + ys;
      FilterMapAppend(xs[1..], ys, keep, f);
    } else {
      assert xs + ys == ys;
    }
  }

  lemma FilterMapSingle<A, B>(x: A, keep: A -> bool, f: A -> B)
    ensures FilterMap([x], keep, f) == (if keep(x) then [f(x)] else [])
  {
  }

  /** An output element is the image of a kept input element, and every kept
      input element's image is in the output. */
  lemma {:induction false} FilterMapMembers<A, B>(xs: seq<A>, keep: A -> bool, f: A -> B)
    ensures forall y :: y in FilterMap(xs, keep, f) ==> exists i :: 0 <= i < |xs| && keep(xs[i]) && y == f(xs[i])
    ensures forall i :: 0 <= i < |xs| && keep(xs[i]) ==> f(xs[i]) in FilterMap(xs, keep, f)
    decreases |xs|
  {
    if |xs| > 0 {
      FilterMapMembers(xs[1..], keep, f);
      var tail := FilterMap(xs[1..], keep, f);
      assert FilterMap(xs, keep, f) == (if keep(xs[0]) then [f(xs[0])] else []) + tail;
      forall y | y in tail
        ensures exists i :: 0 <= i < |xs| && keep(xs[i]) && y == f(xs[i])
      {
        var j :| 0 <= j < |xs[1..]| && keep(xs[1..][j]) && y == f(xs[1..][j]);
        assert xs[j + 1] == xs[1..][j];
      }
      forall i | 1 <= i < |xs| && keep(xs[i])
        ensures f(xs[i]) in tail
      {
        assert xs[1..][i - 1] == xs[i];
      }
    }
  }

  lemma {:induction false} FilterMapDisjoint<A, B, C>(xs: seq<A>, p: A -> bool, q: A -> bool, f: A -> B, g: A -> C)
    requires forall i :: 0 <= i < |xs| ==> !(p(xs[i]) && q(xs[i]))
    ensures |FilterMap(xs, p, f)| + |FilterMap(xs, q, g)| <= |xs|
    decreases |xs|
  {
    if |xs| > 0 {
      assert forall i :: 0 <= i < |xs[1..]| ==> xs[1..][i] == xs[i + 1];
      FilterMapDisjoint(xs[1..], p, q, f, g);
    }
  }
}
