/**
 * Text predicates shared by the backend and the frontend: digits, whitespace,
 * Java's `String.trim()`, SQL `LOWER`, substring search and decimal rendering.
 */
module Strings {

  /** ASCII digit, the class `[0-9]` of both the Java and the JavaScript pattern. */
  predicate IsDigit(c: char) {
    '0' <= c <= '9'
  }

  predicate AllDigits(s: string) {
    forall i | 0 <= i < |s| :: IsDigit(s[i])
  }

  /** The characters JavaScript's `\s` matches (so `\S` is any other character). */
  predicate IsJsWhitespace(c: char) {
    c == '\t' || c == '\n' || c == '\U{000B}' || c == '\U{000C}' || c == '\r' || c == ' ' ||
    c == '\U{00A0}' || c == '\U{1680}' || ('\U{2000}' <= c <= '\U{200A}') ||
    c == '\U{2028}' || c == '\U{2029}' || c == '\U{202F}' || c == '\U{205F}' ||
    c == '\U{3000}' || c == '\U{FEFF}'
  }

  predicate NoJsWhitespace(s: string) {
    forall i | 0 <= i < |s| :: !IsJsWhitespace(s[i])
  }

  /** Java's `trim()` removes every leading and trailing character up to U+0020. */
  predicate IsTrimmable(c: char) {
    c <= ' '
  }

  function TrimStart(s: string): (r: string)
    ensures |r| <= |s| && r == s[|s| - |r|..]
    ensures r != [] ==> !IsTrimmable(r[0])
    ensures forall i | 0 <= i < |s| - |r| :: IsTrimmable(s[i])
    ensures (r == []) == (forall i | 0 <= i < |s| :: IsTrimmable(s[i]))
  {
    if s != [] && IsTrimmable(s[0]) then TrimStart(s[1..]) else s
  }

  function TrimEnd(s: string): (r: string)
    ensures |r| <= |s| && r == s[..|r|]
    ensures r != [] ==> !IsTrimmable(r[|r| - 1])
    ensures forall i | |r| <= i < |s| :: IsTrimmable(s[i])
    ensures s != [] && !IsTrimmable(s[0]) ==> r != []
  {
    if s != [] && IsTrimmable(s[|s| - 1]) then TrimEnd(s[..|s| - 1]) else s
  }

  /** `String.trim()`. */
  function Trim(s: string): string {
    TrimEnd(TrimStart(s))
  }

  /** `s.trim().isEmpty()`: the test behind `@NotBlank` and the service's blank search term. */
  predicate IsBlank(s: string) {
    Trim(s) == []
  }

  /** A string is blank exactly when every character of it is one that `trim()` removes. */
  lemma {:induction false} BlankIffAllTrimmable(s: string)
    ensures IsBlank(s) <==> forall i | 0 <= i < |s| :: IsTrimmable(s[i])
  {
    var t := TrimStart(s);
    if t == [] {
      assert Trim(s) == TrimEnd([]);
    } else {
      assert !IsTrimmable(t[0]);
      assert Trim(s) != [];
    }
  }

  /**
   * SQL `LOWER` on one character. Only ASCII letters are folded; the model does
   * not carry the database's Unicode case tables.
   */
  function LowerChar(c: char): (r: char)
    ensures r == '%' <==> c == '%'
    ensures r == '_' <==> c == '_'
  {
    if 'A' <= c <= 'Z' then (c as int + 32) as char else c
  }

  function Lower(s: string): (r: string)
    ensures |r| == |s|
    ensures forall i | 0 <= i < |s| :: r[i] == LowerChar(s[i])
  {
    seq(|s|, i requires 0 <= i < |s| => LowerChar(s[i]))
  }

  lemma LowerConcat(a: string, b: string)
    ensures Lower(a + b) == Lower(a) + Lower(b)
  {
  }

  lemma LowerSlice(s: string, i: int, j: int)
    requires 0 <= i <= j <= |s|
    ensures Lower(s[i..j]) == Lower(s)[i..j]
  {
  }

  predicate IsPrefix(t: string, s: string) {
    |t| <= |s| && s[..|t|] == t
  }

  /** `t` occurs in `s` as a contiguous run of characters. */
  predicate Contains(s: string, t: string) {
    exists i | 0 <= i <= |s| :: IsPrefix(t, s[i..])
  }

  /** An occurrence of `t` in `s` is an occurrence of `LOWER(t)` in `LOWER(s)`. */
  lemma ContainsLower(s: string, t: string)
    requires Contains(s, t)
    ensures Contains(Lower(s), Lower(t))
  {
    var i :| 0 <= i <= |s| && IsPrefix(t, s[i..]);
    LowerSlice(s, i, i + |t|);
    assert s[i..][..|t|] == s[i..i + |t|];
    assert Lower(s)[i..][..|t|] == Lower(s)[i..i + |t|];
    assert IsPrefix(Lower(t), Lower(s)[i..]);
  }

  function DigitChar(d: int): (c: char)
    requires 0 <= d < 10
    ensures IsDigit(c)
  {
    ('0' as int + d) as char
  }

  /** The number a string of decimal digits spells, most significant digit first. */
  function DecimalValue(s: string): int
    requires AllDigits(s)
  {
    if s == [] then 0 else DecimalValue(s[..|s| - 1]) * 10 + (s[|s| - 1] as int - '0' as int)
  }

  /** Decimal digits of `n`, without leading zeros. */
  function NatToString(n: nat): (r: string)
    ensures r != [] && AllDigits(r)
    ensures DecimalValue(r) == n
    ensures r[0] == '0' <==> n == 0
  {
    if n < 10 then [DigitChar(n)]
    else
      var r := NatToString(n / 10) + [DigitChar(n % 10)];
      assert r[..|r| - 1] == NatToString(n / 10);
      r
  }

  /** Java's decimal rendering of a `Long`, as in `"..." + id`. */
  function IntToString(n: int): (r: string)
    ensures r != []
    ensures n >= 0 ==> AllDigits(r) && DecimalValue(r) == n && (r[0] == '0' ==> |r| == 1)
    ensures n < 0 ==> r[0] == '-' && AllDigits(r[1..]) && DecimalValue(r[1..]) == -n && r[1] != '0'
  {
    if n < 0 then "-" + NatToString(-n) else NatToString(n)
  }
}
