/** Small optional-value wrapper used throughout the model. */
module Wrappers {
  datatype Option<T> = None | Some(value: T) {
    /** The wrapped value, or `default` when there is none. */
    function GetOr(default: T): T {
      match this
      case Some(v) => v
      case None => default
    }
  }
}

/**
 * The JavaScript string operations the three scripts rely on:
 * `String.prototype.trim`, the `\s` regular-expression class, `split(c)[0]`,
 * `split(c).pop()`, `includes`, `length` in UTF-16 code units, `toLowerCase`
 * (ASCII letters only) and the
 * digit filters used by the animated counters.
 */
module Text {
  import opened Wrappers

  /** JavaScript WhiteSpace and LineTerminator code points: what `trim()` strips and `\s` matches. */
  predicate IsWhitespace(c: char) {
    || c == ' ' || c == '\t' || c == '\n' || c == '\r'
    || c == '\U{B}' || c == '\U{C}' || c == '\U{A0}' || c == '\U{FEFF}'
    || c == '\U{1680}' || ('\U{2000}' <= c <= '\U{200A}')
    || c == '\U{2028}' || c == '\U{2029}' || c == '\U{202F}' || c == '\U{205F}' || c == '\U{3000}'
  }

  predicate AllWhitespace(s: string) {
    forall k :: 0 <= k < |s| ==> IsWhitespace(s[k])
  }

  /** Drops leading whitespace. */
  function TrimStart(s: string): (r: string)
    ensures |r| <= |s| && r == s[|s| - |r|..]
    ensures AllWhitespace(s[..|s| - |r|])
    ensures r != [] ==> !IsWhitespace(r[0])
  {
    if |s| > 0 && IsWhitespace(s[0]) then
      var r := TrimStart(s[1..]);
      assert forall k :: 0 < k < |s| - |r| ==> s[k] == s[1..][..|s| - 1 - |r|][k - 1];
      r
    else s
  }

  /** Drops trailing whitespace. */
  function TrimEnd(s: string): (r: string)
    ensures |r| <= |s| && r == s[..|r|]
    ensures AllWhitespace(s[|r|..])
    ensures r != [] ==> !IsWhitespace(r[|r| - 1])
  {
    if |s| > 0 && IsWhitespace(s[|s| - 1]) then
      var r := TrimEnd(s[..|s| - 1]);
      assert s[|r|..] == s[..|s| - 1][|r|..] + [s[|s| - 1]];
      r
    else s
  }

  /** `r` sits at position `i` of `s` with only whitespace before and after it. */
  predicate TrimmedAt(s: string, r: string, i: int) {
    0 <= i <= |s| - |r| && r == s[i..i + |r|] && AllWhitespace(s[..i]) && AllWhitespace(s[i + |r|..])
  }

  /** `s.trim()`: the slice of `s` left after stripping whitespace at both ends. */
  function Trim(s: string): (r: string)
    ensures |r| <= |s|
    ensures r != [] ==> !IsWhitespace(r[0]) && !IsWhitespace(r[|r| - 1])
    ensures r == [] <==> AllWhitespace(s)
    ensures exists i :: TrimmedAt(s, r, i)
  {
    var t := TrimStart(s);
    var r := TrimEnd(t);
    TrimWindow(s, t, r);
    r
  }

  /** A whitespace-free head `t` of `s`, cut down to a whitespace-free start `r`, sits in `s` between blanks. */
  lemma TrimWindow(s: string, t: string, r: string)
    requires |t| <= |s| && t == s[|s| - |t|..] && AllWhitespace(s[..|s| - |t|])
    requires |r| <= |t| && r == t[..|r|] && AllWhitespace(t[|r|..])
    requires r != [] ==> !IsWhitespace(r[0])
    ensures TrimmedAt(s, r, |s| - |t|)
    ensures r == [] <==> AllWhitespace(s)
  {
    var i := |s| - |t|;
    assert s[i..i + |r|] == t[..|r|];
    assert s[i + |r|..] == t[|r|..];
    if r == [] {
      assert forall k :: 0 <= k < |s| ==> IsWhitespace(s[k]) by {
        forall k | 0 <= k < |s|
          ensures IsWhitespace(s[k])
        {
          if k < i { assert s[k] == s[..i][k]; } else { assert s[k] == t[k - i]; }
        }
      }
    } else {
      assert s[i] == r[0];
    }
  }

  /** Trimming text that already starts and ends with a non-blank character changes nothing. */
  lemma TrimOfTrimmed(s: string)
    requires s != [] && !IsWhitespace(s[0]) && !IsWhitespace(s[|s| - 1])
    ensures Trim(s) == s
  {
  }

  /** `s.indexOf(c)`, as an option: the first position holding `c`. */
  function IndexOf(s: string, c: char): (r: Option<nat>)
    ensures r.Some? ==> r.value < |s| && s[r.value] == c && c !in s[..r.value]
    ensures r.None? <==> c !in s
  {
    if s == [] then None
    else if s[0] == c then Some(0)
    else
      var t := IndexOf(s[1..], c);
      assert s == [s[0]] + s[1..];
      if t.Some? then
        assert s[..t.value + 1] == [s[0]] + s[1..][..t.value];
        Some(t.value + 1)
      else None
  }

  /** `s.split(c)[0]`: everything before the first `c`, or all of `s`. */
  function BeforeFirst(s: string, c: char): (r: string)
    ensures c !in r
    ensures |r| <= |s| && r == s[..|r|]
    ensures |r| < |s| ==> s[|r|] == c
  {
    match IndexOf(s, c)
    case Some(i) => s[..i]
    case None => s
  }

  /** The position of the last `c` in `s`, if there is one. */
  function LastIndex(s: string, c: char): (r: Option<nat>)
    ensures r.None? <==> c !in s
    ensures r.Some? ==> r.value < |s| && s[r.value] == c && c !in s[r.value + 1..]
  {
    if s == [] then None
    else if s[|s| - 1] == c then Some(|s| - 1)
    else
      var u := s[..|s| - 1];
      var r := LastIndex(u, c);
      assert s == u + [s[|s| - 1]];
      assert r.Some? ==> s[r.value + 1..] == u[r.value + 1..] + [s[|s| - 1]];
      r
  }

  /** `s.split(c).pop()`: everything after the last `c`, or all of `s`. */
  function AfterLast(s: string, c: char): (r: string)
    ensures c !in r
    ensures |r| <= |s| && r == s[|s| - |r|..]
    ensures |r| < |s| ==> s[|s| - |r| - 1] == c
  {
    match LastIndex(s, c)
    case None => s
    case Some(p) => s[p + 1..]
  }

  /** After the last `c`, at `p`, comes everything that follows it. */
  lemma {:induction false} AfterLastAt(s: string, c: char, p: nat)
    requires p < |s| && s[p] == c && c !in s[p + 1..]
    ensures AfterLast(s, c) == s[p + 1..]
    decreases |s|
  {
    if p < |s| - 1 {
      var u := s[..|s| - 1];
      assert s[|s| - 1] == s[p + 1..][|s| - p - 2];
      assert u[p + 1..] + [s[|s| - 1]] == s[p + 1..];
      AfterLastAt(u, c, p);
    }
  }

  /** After a `/`, a name without one is the whole last segment. */
  lemma AfterLastSuffix(prefix: string, name: string)
    requires prefix != [] && prefix[|prefix| - 1] == '/' && '/' !in name
    ensures AfterLast(prefix + name, '/') == name
  {
    var s := prefix + name;
    assert s[|prefix|..] == name;
    assert s[|prefix| - 1] == '/';
    AfterLastAt(s, '/', |prefix| - 1);
  }

  /**
   * `s.split('/').pop() || fallback`: the last path segment of `s`, or
   * `fallback` when that segment is empty.
   */
  function LastSegmentOr(s: string, fallback: string): (r: string)
    ensures AfterLast(s, '/') != [] ==> r == AfterLast(s, '/')
    ensures AfterLast(s, '/') == [] ==> r == fallback
    ensures fallback != [] && '/' !in fallback ==> r != [] && '/' !in r
    ensures r == fallback || (|r| <= |s| && r == s[|s| - |r|..])
  {
    var last := AfterLast(s, '/');
    if |last| == 0 then fallback else last
  }

  /** A path ending in `/name` gives `name`. */
  lemma LastSegmentOfPath(prefix: string, name: string, fallback: string)
    requires name != [] && '/' !in name
    ensures LastSegmentOr(prefix + "/" + name, fallback) == name
  {
    AfterLastSuffix(prefix + "/", name);
  }

  /** A path ending in `/` gives the fallback. */
  lemma LastSegmentTrailingSlash(prefix: string, fallback: string)
    ensures LastSegmentOr(prefix + "/", fallback) == fallback
  {
    var s := prefix + "/";
    assert s[|s| - 1] == '/';
    AfterLastAt(s, '/', |s| - 1);
  }

  /** `needle` occurs in `hay` starting at position `i`. */
  predicate OccursAt(hay: string, needle: string, i: int) {
    0 <= i && i + |needle| <= |hay| && hay[i..i + |needle|] == needle
  }

  /** `hay.includes(needle)`. */
  predicate Includes(hay: string, needle: string) {
    exists i :: 0 <= i <= |hay| && OccursAt(hay, needle, i)
  }

  /** The empty string is part of every string, so `includes("")` always holds. */
  lemma IncludesEmpty(hay: string)
    ensures Includes(hay, "")
  {
    assert OccursAt(hay, "", 0);
  }

  /** The UTF-16 code units of `c`: a code point past U+FFFF takes a surrogate pair. */
  function CodeUnits(c: char): nat {
    if c as int < 0x1_0000 then 1 else 2
  }

  /** `s.length`, which counts UTF-16 code units rather than code points. */
  function Utf16Length(s: string): (n: nat)
    ensures |s| <= n <= 2 * |s|
  {
    if s == [] then 0 else CodeUnits(s[0]) + Utf16Length(s[1..])
  }

  /** Lengths add up over concatenation. */
  lemma {:induction false} Utf16LengthConcat(a: string, b: string)
    ensures Utf16Length(a + b) == Utf16Length(a) + Utf16Length(b)
    decreases |a|
  {
    if a == [] {
      assert a + b == b;
    } else {
      assert (a + b)[0] == a[0] && (a + b)[1..] == a[1..] + b;
      Utf16LengthConcat(a[1..], b);
    }
  }

  /** Within the Basic Multilingual Plane a code point is one code unit, so `length` is the character count. */
  lemma {:induction false} Utf16LengthBmp(s: string)
    requires forall k :: 0 <= k < |s| ==> s[k] as int < 0x1_0000
    ensures Utf16Length(s) == |s|
    decreases |s|
  {
    if s != [] {
      assert forall k :: 0 <= k < |s[1..]| ==> s[1..][k] == s[k + 1];
      Utf16LengthBmp(s[1..]);
    }
  }

  /** `toLowerCase()` restricted to the ASCII letters. */
  function LowerChar(c: char): (r: char)
    ensures 'A' <= c <= 'Z' ==> 'a' <= r <= 'z' && r as int == c as int - 'A' as int + 'a' as int
    ensures !('A' <= c <= 'Z') ==> r == c
  {
    if 'A' <= c <= 'Z' then (c as int - 'A' as int + 'a' as int) as char else c
  }

  function Lower(s: string): (r: string)
    ensures |r| == |s|
    ensures forall k :: 0 <= k < |s| ==> r[k] == LowerChar(s[k])
  {
    seq(|s|, k requires 0 <= k < |s| => LowerChar(s[k]))
  }

  predicate IsDigit(c: char) {
    '0' <= c <= '9'
  }

  /** `s.replace(/[^0-9]/g, '')`: the digit characters of `s`, in order. */
  function Digits(s: string): (r: string)
    ensures forall k :: 0 <= k < |r| ==> IsDigit(r[k])
    ensures |r| <= |s|
  {
    if s == [] then [] else (if IsDigit(s[0]) then [s[0]] else []) + Digits(s[1..])
  }

  /** `s.replace(/[0-9]/g, '')`: the other characters of `s`, in order. */
  function NonDigits(s: string): (r: string)
    ensures forall k :: 0 <= k < |r| ==> !IsDigit(r[k])
    ensures |r| + |Digits(s)| == |s|
  {
    if s == [] then [] else (if IsDigit(s[0]) then [] else [s[0]]) + NonDigits(s[1..])
  }

  /** Both filters work piece by piece. */
  lemma {:induction false} DigitsAppend(a: string, b: string)
    ensures Digits(a + b) == Digits(a) + Digits(b)
    ensures NonDigits(a + b) == NonDigits(a) + NonDigits(b)
  {
    DigitsConcat(a, b);
    NonDigitsConcat(a, b);
  }

  lemma {:induction false} DigitsConcat(a: string, b: string)
    ensures Digits(a + b) == Digits(a) + Digits(b)
  {
    if a == [] {
      assert a + b == b;
    } else {
      var head := if IsDigit(a[0]) then [a[0]] else [];
      assert (a + b)[0] == a[0];
      assert (a + b)[1..] == a[1..] + b;
      DigitsConcat(a[1..], b);
      assert Digits(a + b) == head + (Digits(a[1..]) + Digits(b));
      assert head + (Digits(a[1..]) + Digits(b)) == (head + Digits(a[1..])) + Digits(b);
    }
  }

  lemma {:induction false} NonDigitsConcat(a: string, b: string)
    ensures NonDigits(a + b) == NonDigits(a) + NonDigits(b)
  {
    if a == [] {
      assert a + b == b;
    } else {
      var head := if IsDigit(a[0]) then [] else [a[0]];
      assert (a + b)[0] == a[0];
      assert (a + b)[1..] == a[1..] + b;
      NonDigitsConcat(a[1..], b);
      assert NonDigits(a + b) == head + (NonDigits(a[1..]) + NonDigits(b));
      assert head + (NonDigits(a[1..]) + NonDigits(b)) == (head + NonDigits(a[1..])) + NonDigits(b);
    }
  }

  /** Filtering a string of digits keeps it whole and leaves nothing else. */
  lemma {:induction false} DigitsOfDigits(s: string)
    requires forall k :: 0 <= k < |s| ==> IsDigit(s[k])
    ensures Digits(s) == s && NonDigits(s) == []
  {
    if s != [] {
      DigitsOfDigits(s[1..]);
    }
  }

  /** Filtering a string with no digits leaves it whole. */
  lemma {:induction false} NonDigitsOfNonDigits(s: string)
    requires forall k :: 0 <= k < |s| ==> !IsDigit(s[k])
    ensures NonDigits(s) == s && Digits(s) == []
  {
    if s != [] {
      NonDigitsOfNonDigits(s[1..]);
    }
  }

  function DigitValue(c: char): nat
    requires IsDigit(c)
  {
    c as int - '0' as int
  }

  function DigitChar(d: nat): (c: char)
    requires d < 10
    ensures IsDigit(c) && DigitValue(c) == d
  {
    ('0' as int + d) as char
  }

  /** `parseInt(ds, 10)` for a non-empty string of decimal digits. */
  function DecimalValue(ds: string): nat
    requires forall k :: 0 <= k < |ds| ==> IsDigit(ds[k])
  {
    if ds == [] then 0 else DecimalValue(ds[..|ds| - 1]) * 10 + DigitValue(ds[|ds| - 1])
  }

  /** `String(n)` for a natural number: decimal digits, no leading zero. */
  function NatToDecimal(n: nat): (r: string)
    ensures r != []
    ensures forall k :: 0 <= k < |r| ==> IsDigit(r[k])
    ensures |r| > 1 ==> r[0] != '0'
  {
    if n < 10 then [DigitChar(n)] else NatToDecimal(n / 10) + [DigitChar(n % 10)]
  }

  /** Printing a number and parsing it back gives the number. */
  lemma {:induction false} DecimalRoundTrip(n: nat)
    ensures DecimalValue(NatToDecimal(n)) == n
  {
    var r := NatToDecimal(n);
    if n >= 10 {
      DecimalRoundTrip(n / 10);
      assert r[..|r| - 1] == NatToDecimal(n / 10);
    }
  }
}
