/** The JavaScript string primitives the components rely on: white space as
    `String.prototype.trim` and the regular-expression class `\s` see it,
    `trim`, `indexOf`, `includes`, the ASCII character classes `\d`, `[A-Z]`,
    `[a-z]`, and the decimal rendering of an integer in a template string. */
module Text {

  /** JavaScript's WhiteSpace and LineTerminator code points. */
  predicate IsJsWhitespace(c: char) {
    || c == '\t' || c == '\n' || c == '\U{000B}' || c == '\U{000C}' || c == '\r'
    || c == ' ' || c == '\U{00A0}' || c == '\U{1680}'
    || ('\U{2000}' <= c <= '\U{200A}')
    || c == '\U{2028}' || c == '\U{2029}' || c == '\U{202F}' || c == '\U{205F}'
    || c == '\U{3000}' || c == '\U{FEFF}'
  }

  predicate AllWhitespace(s: string) {
    forall i :: 0 <= i < |s| ==> IsJsWhitespace(s[i])
  }

  predicate IsDigit(c: char) { '0' <= c <= '9' }
  predicate IsUpper(c: char) { 'A' <= c <= 'Z' }
  predicate IsLower(c: char) { 'a' <= c <= 'z' }
  predicate IsAsciiLetter(c: char) { IsUpper(c) || IsLower(c) }

  /** Number of white-space characters at the start of `s`. */
  function LeadingSpace(s: string): (k: nat)
    ensures k <= |s|
    ensures forall i :: 0 <= i < k ==> IsJsWhitespace(s[i])
    ensures k < |s| ==> !IsJsWhitespace(s[k])
  {
    if s == [] || !IsJsWhitespace(s[0]) then 0 else 1 + LeadingSpace(s[1..])
  }

  /** Number of white-space characters at the end of `s`. */
  function TrailingSpace(s: string): (k: nat)
    ensures k <= |s|
    ensures forall i :: |s| - k <= i < |s| ==> IsJsWhitespace(s[i])
    ensures k < |s| ==> !IsJsWhitespace(s[|s| - 1 - k])
  {
    if s == [] || !IsJsWhitespace(s[|s| - 1]) then 0 else 1 + TrailingSpace(s[..|s| - 1])
  }

  /** `s.trim()`: `s` without its leading and trailing white space. */
  function Trim(s: string): (r: string)
    ensures |r| <= |s|
    ensures r == [] <==> AllWhitespace(s)
    ensures r != [] ==> !IsJsWhitespace(r[0]) && !IsJsWhitespace(r[|r| - 1])
  {
    var a := LeadingSpace(s);
    if a == |s| then [] else s[a .. |s| - TrailingSpace(s)]
  }

  /** Trimming removes exactly the white-space padding around a core that
      starts and ends with a non-white-space character. */
  lemma TrimPadded(pre: string, core: string, post: string)
    requires AllWhitespace(pre) && AllWhitespace(post)
    requires core != [] ==> !IsJsWhitespace(core[0]) && !IsJsWhitespace(core[|core| - 1])
    ensures Trim(pre + core + post) == core
  {
    var s := pre + core + post;
    if core == [] {
      assert AllWhitespace(s) by {
        forall i | 0 <= i < |s| ensures IsJsWhitespace(s[i]) {
          if i < |pre| { assert s[i] == pre[i]; } else { assert s[i] == post[i - |pre|]; }
        }
      }
    } else {
      LeadingSpaceOfPadded(pre, core + post);
      assert s == pre + (core + post);
      assert s == (pre + core) + post;
      TrailingSpaceOfPadded(pre + core, post);
      assert s[|pre| .. |s| - |post|] == core;
    }
  }

  lemma {:induction false} LeadingSpaceOfPadded(pre: string, rest: string)
    requires AllWhitespace(pre)
    requires rest != [] && !IsJsWhitespace(rest[0])
    ensures LeadingSpace(pre + rest) == |pre|
  {
    if pre != [] {
      assert (pre + rest)[1..] == pre[1..] + rest;
      LeadingSpaceOfPadded(pre[1..], rest);
    } else {
      assert pre + rest == rest;
    }
  }

  lemma {:induction false} TrailingSpaceOfPadded(rest: string, post: string)
    requires AllWhitespace(post)
    requires rest != [] && !IsJsWhitespace(rest[|rest| - 1])
    ensures TrailingSpace(rest + post) == |post|
  {
    if post != [] {
      var s := rest + post;
      assert s[..|s| - 1] == rest + post[..|post| - 1];
      TrailingSpaceOfPadded(rest, post[..|post| - 1]);
    } else {
      assert rest + post == rest;
    }
  }

  /** Trimming twice is trimming once. */
  lemma TrimIdempotent(s: string)
    ensures Trim(Trim(s)) == Trim(s)
  {
    TrimPadded([], Trim(s), []);
    assert [] + Trim(s) + [] == Trim(s);
  }

  /** `s.indexOf(c)`: the first index of `c` in `s`, or -1. */
  function IndexOf(s: string, c: char): (r: int)
    ensures -1 <= r < |s|
    ensures r == -1 <==> c !in s
    ensures r >= 0 ==> s[r] == c && forall j :: 0 <= j < r ==> s[j] != c
  {
    if s == [] then -1
    else if s[0] == c then 0
    else
      var k := IndexOf(s[1..], c);
      if k < 0 then -1 else k + 1
  }

  /** `s.includes(sub)`: `sub` occurs in `s` at some position. */
  function Includes(s: string, sub: string): (r: bool)
    ensures r <==> exists i :: 0 <= i <= |s| - |sub| && sub <= s[i..]
  {
    if sub <= s then
      assert sub <= s[0..];
      true
    else if s == [] then false
    else
      var r := Includes(s[1..], sub);
      if r then
        var i :| 0 <= i <= |s[1..]| - |sub| && sub <= s[1..][i..];
        assert s[1..][i..] == s[i + 1..];
        true
      else
        assert forall i :: 1 <= i <= |s| - |sub| ==> s[i..] == s[1..][i - 1..];
        false
  }

  /** Including a one-character string is membership of that character. */
  lemma IncludesChar(s: string, c: char)
    ensures Includes(s, [c]) <==> c in s
  {
    if c in s {
      var i :| 0 <= i < |s| && s[i] == c;
      assert [c] <= s[i..];
    } else {
      forall i | 0 <= i < |s| ensures !([c] <= s[i..]) {
        assert s[i..][0] == s[i];
      }
    }
  }

  /** The value of a string of decimal digits, read from the left. */
  function DigitsValue(s: string): nat
    requires forall i :: 0 <= i < |s| ==> IsDigit(s[i])
  {
    if s == [] then 0
    else
      var last := s[|s| - 1];
      assert IsDigit(last);
      DigitsValue(s[..|s| - 1]) * 10 + (last as int - '0' as int)
  }

  /** Decimal digits of a natural number, as JavaScript prints it: the digits
      read back give the number, and there is no leading zero. */
  function NatToString(n: nat): (r: string)
    ensures r != [] && forall i :: 0 <= i < |r| ==> IsDigit(r[i])
    ensures DigitsValue(r) == n
    ensures |r| == 1 <==> n < 10
    ensures r[0] == '0' <==> n == 0
  {
    var d := [(n % 10) as char + '0'];
    if n < 10 then d
    else
      var high := NatToString(n / 10);
      assert (high + d)[..|high + d| - 1] == high;
      high + d
  }

  /** An integer in a template string: a leading `-` for negatives, then the
      digits of its magnitude. */
  function IntToString(n: int): (r: string)
    ensures n < 0 ==> |r| >= 2 && r[0] == '-' && (forall i :: 1 <= i < |r| ==> IsDigit(r[i]))
                      && DigitsValue(r[1..]) == -n
    ensures n >= 0 ==> r != [] && (forall i :: 0 <= i < |r| ==> IsDigit(r[i])) && DigitsValue(r) == n
  {
    if n < 0 then "-" + NatToString(-n) else NatToString(n)
  }
}
