/**
 * The few JavaScript string primitives the contact-form validator relies on:
 * the white-space class shared by `\s` and `String.prototype.trim`, the
 * `length` property (which counts UTF-16 code units), `trim()` itself and
 * `replace(/\D/g, '')`.
 *
 * A JavaScript string is modelled as a Dafny `string`, a sequence of Unicode
 * scalar values; a character outside the Basic Multilingual Plane occupies two
 * UTF-16 code units in JavaScript, which `Utf16Length` accounts for.
 */
module JsString {

  /** White space or a line terminator in ECMAScript: the characters matched by
      `\s` and removed by `trim()`. */
  predicate IsWhitespace(c: char) {
    || c == '\t' || c == '\n' || c == '\U{000B}' || c == '\U{000C}' || c == '\r'
    || c == ' ' || c == '\U{00A0}' || c == '\U{1680}'
    || ('\U{2000}' <= c <= '\U{200A}')
    || c == '\U{2028}' || c == '\U{2029}' || c == '\U{202F}' || c == '\U{205F}'
    || c == '\U{3000}' || c == '\U{FEFF}'
  }

  /** The characters matched by `\d`; `\D` matches every other character. */
  predicate IsAsciiDigit(c: char) {
    '0' <= c <= '9'
  }

  predicate AllWhitespace(s: string) {
    forall i :: 0 <= i < |s| ==> IsWhitespace(s[i])
  }

  /** Every character of s lies in the Basic Multilingual Plane. */
  predicate IsBmp(s: string) {
    forall i :: 0 <= i < |s| ==> s[i] < '\U{1_0000}'
  }

  /** Number of UTF-16 code units that encode c. */
  function CodeUnits(c: char): nat {
    if c < '\U{1_0000}' then 1 else 2
  }

  /** The JavaScript `length` of s: its number of UTF-16 code units. */
  function Utf16Length(s: string): (n: nat)
    ensures |s| <= n <= 2 * |s|
    ensures IsBmp(s) ==> n == |s|
    ensures n == 0 <==> s == []
  {
    if s == [] then 0
    else
      var n := CodeUnits(s[0]) + Utf16Length(s[1..]);
      assert IsBmp(s) ==> IsBmp(s[1..]) by {
        if IsBmp(s) {
          forall i | 0 <= i < |s[1..]| ensures s[1..][i] < '\U{1_0000}' {
            assert s[1..][i] == s[i + 1];
          }
        }
      }
      n
  }

  /** Number of white-space characters at the start of s. */
  function LeadingWhitespace(s: string): (n: nat)
    ensures n <= |s|
    ensures forall i :: 0 <= i < n ==> IsWhitespace(s[i])
    ensures n < |s| ==> !IsWhitespace(s[n])
  {
    if s != [] && IsWhitespace(s[0]) then
      var n := 1 + LeadingWhitespace(s[1..]);
      assert forall i :: 1 <= i < n ==> s[i] == s[1..][i - 1];
      n
    else 0
  }

  /** Number of white-space characters at the end of s. */
  function TrailingWhitespace(s: string): (n: nat)
    ensures n <= |s|
    ensures forall i :: |s| - n <= i < |s| ==> IsWhitespace(s[i])
    ensures n < |s| ==> !IsWhitespace(s[|s| - 1 - n])
  {
    if s != [] && IsWhitespace(s[|s| - 1]) then
      1 + TrailingWhitespace(s[..|s| - 1])
    else 0
  }

  /** `String.prototype.trim`: s without its leading and trailing white space. */
  function Trim(s: string): (r: string)
    ensures |r| <= |s|
    ensures r == [] <==> AllWhitespace(s)
    ensures r != [] ==> !IsWhitespace(r[0]) && !IsWhitespace(r[|r| - 1])
  {
    var lo := LeadingWhitespace(s);
    var rest := s[lo..];
    var r := rest[..|rest| - TrailingWhitespace(rest)];
    assert r != [] ==> r[0] == s[lo];
    assert AllWhitespace(s) ==> lo == |s|;
    assert lo < |s| ==> r != [] by {
      if lo < |s| {
        assert !IsWhitespace(rest[0]);
      }
    }
    r
  }

  /** Trim removes white space only: what it returns is a slice of s with
      nothing but white space on either side. */
  lemma TrimSplit(s: string) returns (lo: nat, hi: nat)
    ensures lo <= hi <= |s|
    ensures Trim(s) == s[lo..hi]
    ensures AllWhitespace(s[..lo]) && AllWhitespace(s[hi..])
  {
    lo := LeadingWhitespace(s);
    var rest := s[lo..];
    hi := lo + |rest| - TrailingWhitespace(rest);
    assert Trim(s) == rest[..hi - lo];
    assert forall i :: hi <= i < |s| ==> s[i] == rest[i - lo];
  }

  /** Trim is determined by its two defining properties: if s is some white
      space, then r, then some white space, and r neither starts nor ends with
      white space, then r is Trim(s). */
  lemma TrimUnique(s: string, p: string, r: string, q: string)
    requires s == p + r + q
    requires AllWhitespace(p) && AllWhitespace(q)
    requires r != [] ==> !IsWhitespace(r[0]) && !IsWhitespace(r[|r| - 1])
    ensures Trim(s) == r
  {
    var lo, hi := TrimSplit(s);
    if r == [] {
      assert AllWhitespace(s) by {
        forall i | 0 <= i < |s| ensures IsWhitespace(s[i]) {
          if i < |p| { assert s[i] == p[i]; } else { assert s[i] == q[i - |p|]; }
        }
      }
    } else {
      // r's first and last characters bound the trimmed slice from both sides.
      assert s[|p|] == r[0];
      assert s[|p| + |r| - 1] == r[|r| - 1];
      assert Trim(s) != [];
      assert s[lo] == Trim(s)[0] && s[hi - 1] == Trim(s)[hi - lo - 1];
      assert forall i :: 0 <= i < |p| ==> s[i] == p[i];
      assert lo == |p|;
      assert forall i :: |p| + |r| <= i < |s| ==> s[i] == q[i - |p| - |r|];
      assert forall i :: hi <= i < |s| ==> s[i] == s[hi..][i - hi];
      assert hi == |p| + |r|;
      assert s[lo..hi] == r;
    }
  }

  /** Trimming twice is trimming once. */
  lemma TrimIdempotent(s: string)
    ensures Trim(Trim(s)) == Trim(s)
  {
  }

  /** `replace(/\D/g, '')`: the ASCII digits of s, in their order. */
  function KeepDigits(s: string): (r: string)
    ensures |r| <= |s|
    ensures forall i :: 0 <= i < |r| ==> IsAsciiDigit(r[i])
  {
    if s == [] then []
    else (if IsAsciiDigit(s[0]) then [s[0]] else []) + KeepDigits(s[1..])
  }

  /** KeepDigits keeps every digit of s, as often as it occurs, and nothing
      else. */
  lemma {:induction false} KeepDigitsMultiset(s: string)
    ensures forall c :: multiset(KeepDigits(s))[c] == if IsAsciiDigit(c) then multiset(s)[c] else 0
  {
    if s != [] {
      KeepDigitsMultiset(s[1..]);
      assert s == [s[0]] + s[1..];
      assert multiset(s) == multiset{s[0]} + multiset(s[1..]);
    }
  }

  lemma {:induction false} KeepDigitsAppend(a: string, b: string)
    ensures KeepDigits(a + b) == KeepDigits(a) + KeepDigits(b)
  {
    if a == [] {
      assert a + b == b;
    } else {
      assert (a + b)[0] == a[0];
      assert (a + b)[1..] == a[1..] + b;
      KeepDigitsAppend(a[1..], b);
    }
  }

  /** Positions of s that hold an ASCII digit. */
  function DigitPositions(s: string): set<nat> {
    set i: nat | i < |s| && IsAsciiDigit(s[i])
  }

  /** Appending one character adds its position when it is a digit. */
  lemma DigitPositionsSnoc(t: string, c: char)
    ensures DigitPositions(t + [c]) == DigitPositions(t) + (if IsAsciiDigit(c) then {|t|} else {})
    ensures |t| !in DigitPositions(t)
  {
  }

  /** KeepDigits drops every other character: what it returns is exactly as
      long as the number of digits in s. */
  lemma {:induction false} KeepDigitsCounts(s: string)
    ensures |KeepDigits(s)| == |DigitPositions(s)|
  {
    if s != [] {
      var t, c := s[..|s| - 1], s[|s| - 1];
      assert s == t + [c];
      KeepDigitsCounts(t);
      KeepDigitsAppend(t, [c]);
      assert [c][1..] == [];
      DigitPositionsSnoc(t, c);
    }
  }

}
