/**
 * The JavaScript string operations the application relies on:
 * `String.prototype.replace` with a global literal pattern, `trim`,
 * `split` on one character, `length` in UTF-16 code units, and the decimal
 * rendering of an integer in a template literal (for magnitudes below
 * 10^21). Each comes with the property that pins it down.
 */
module Text {
  import opened Common

  /* ---------- replace(/pat/g, rep) ---------- */

  /**
   * `s.replace(/pat/g, rep)` for a pattern without special characters: scan
   * from the left, replace each non-overlapping occurrence, continue after it.
   */
  function ReplaceAll(s: string, pat: string, rep: string): (r: string)
    requires |pat| > 0
    ensures pat[0] !in s ==> r == s
    ensures |pat| == 1 && pat[0] !in rep ==> pat[0] !in r
    decreases |s|
  {
    if |s| < |pat| then s
    else if s[..|pat|] == pat then rep + ReplaceAll(s[|pat|..], pat, rep)
    else
      assert s[..|pat|][0] == s[0];
      [s[0]] + ReplaceAll(s[1..], pat, rep)
  }

  /** Text free of the pattern's first character is copied as it is, and the scan goes on after it. */
  lemma {:induction false} ReplaceAllSkipClean(s: string, pat: string, rep: string, t: string)
    requires |pat| > 0 && pat[0] !in s
    ensures ReplaceAll(s + t, pat, rep) == s + ReplaceAll(t, pat, rep)
    decreases |s|
  {
    var u := s + t;
    if s == [] {
      assert u == t;
    } else if |u| < |pat| {
      assert ReplaceAll(t, pat, rep) == t;
    } else {
      assert u[..|pat|][0] == s[0];
      assert ReplaceAll(u, pat, rep) == [s[0]] + ReplaceAll(u[1..], pat, rep);
      assert u[1..] == s[1..] + t;
      ReplaceAllSkipClean(s[1..], pat, rep, t);
      assert [s[0]] + (s[1..] + ReplaceAll(t, pat, rep)) == s + ReplaceAll(t, pat, rep);
    }
  }

  /** A one-character pattern is replaced in each part of a concatenation separately. */
  lemma {:induction false} ReplaceCharConcat(a: string, b: string, c: char, rep: string)
    ensures ReplaceAll(a + b, [c], rep) == ReplaceAll(a, [c], rep) + ReplaceAll(b, [c], rep)
    decreases |a|
  {
    if |a| > 0 {
      var ab := a + b;
      assert ab[1..] == a[1..] + b;
      assert ab[..1] == a[..1];
      ReplaceCharConcat(a[1..], b, c, rep);
      var tail := ReplaceAll(a[1..], [c], rep) + ReplaceAll(b, [c], rep);
      assert ReplaceAll(ab[1..], [c], rep) == tail;
      if a[..1] == [c] {
        assert ReplaceAll(ab, [c], rep) == rep + tail;
        assert ReplaceAll(a, [c], rep) == rep + ReplaceAll(a[1..], [c], rep);
        assert rep + tail == (rep + ReplaceAll(a[1..], [c], rep)) + ReplaceAll(b, [c], rep);
      } else {
        assert ReplaceAll(ab, [c], rep) == [a[0]] + tail;
        assert ReplaceAll(a, [c], rep) == [a[0]] + ReplaceAll(a[1..], [c], rep);
        assert [a[0]] + tail == ([a[0]] + ReplaceAll(a[1..], [c], rep)) + ReplaceAll(b, [c], rep);
      }
    } else {
      assert a + b == b;
      assert ReplaceAll(a, [c], rep) == [];
    }
  }

  /**
   * Text free of the pattern's first character, followed by the pattern, is
   * copied and the pattern replaced; scanning resumes after the occurrence.
   */
  lemma ReplaceAllAfterClean(s: string, pat: string, rep: string, t: string)
    requires |pat| > 0 && pat[0] !in s
    ensures ReplaceAll(s + pat + t, pat, rep) == s + rep + ReplaceAll(t, pat, rep)
  {
    assert s + pat + t == s + (pat + t);
    ReplaceAllSkipClean(s, pat, rep, pat + t);
    assert (pat + t)[..|pat|] == pat;
    assert (pat + t)[|pat|..] == t;
    assert s + (rep + ReplaceAll(t, pat, rep)) == s + rep + ReplaceAll(t, pat, rep);
  }

  /* ---------- counting ---------- */

  /** The number of occurrences of `c` in `s`. */
  function Occurrences(s: string, c: char): (n: nat)
    ensures n <= |s|
    ensures n == 0 <==> c !in s
    decreases |s|
  {
    if s == [] then 0 else (if s[0] == c then 1 else 0) + Occurrences(s[1..], c)
  }

  lemma {:induction false} OccurrencesConcat(a: string, b: string, c: char)
    ensures Occurrences(a + b, c) == Occurrences(a, c) + Occurrences(b, c)
    decreases |a|
  {
    if a == [] {
      assert a + b == b;
    } else {
      assert (a + b)[1..] == a[1..] + b;
      OccurrencesConcat(a[1..], b, c);
    }
  }

  /* ---------- length ---------- */

  /**
   * `s.length`: JavaScript strings count UTF-16 code units, so a character
   * beyond the Basic Multilingual Plane (U+10000 and up) counts twice.
   */
  function Utf16Length(s: string): (n: nat)
    ensures |s| <= n <= 2 * |s|
    ensures (forall i :: 0 <= i < |s| ==> s[i] < '\U{10000}') ==> n == |s|
    decreases |s|
  {
    if s == [] then 0 else (if s[0] < '\U{10000}' then 1 else 2) + Utf16Length(s[1..])
  }

  /* ---------- trim() ---------- */

  /** The characters `String.prototype.trim` removes: white space and line terminators. */
  predicate IsJsSpace(c: char)
  {
    c == '\t' || c == '\n' || c == '\U{B}' || c == '\U{C}' || c == '\r' || c == ' '
    || c == '\U{A0}' || c == '\U{1680}' || ('\U{2000}' <= c <= '\U{200A}')
    || c == '\U{2028}' || c == '\U{2029}' || c == '\U{202F}' || c == '\U{205F}'
    || c == '\U{3000}' || c == '\U{FEFF}'
  }

  /** `s` with its leading white space removed: the longest suffix that does not start with a space. */
  function TrimStart(s: string): (r: string)
    ensures |r| <= |s| && r == s[|s| - |r|..]
    ensures forall i :: 0 <= i < |s| - |r| ==> IsJsSpace(s[i])
    ensures r != [] ==> !IsJsSpace(r[0])
    decreases |s|
  {
    if |s| > 0 && IsJsSpace(s[0]) then TrimStart(s[1..]) else s
  }

  /** `s` with its trailing white space removed: the longest prefix that does not end with a space. */
  function TrimEnd(s: string): (r: string)
    ensures |r| <= |s| && r == s[..|r|]
    ensures forall i :: |r| <= i < |s| ==> IsJsSpace(s[i])
    ensures r != [] ==> !IsJsSpace(r[|r| - 1])
    decreases |s|
  {
    if |s| > 0 && IsJsSpace(s[|s| - 1]) then TrimEnd(s[..|s| - 1]) else s
  }

  /** How many characters `trim` drops from the front of `s`. */
  function LeadingSpaceCount(s: string): (n: nat)
    ensures n <= |s|
  {
    |s| - |TrimStart(s)|
  }

  /**
   * `s.trim()`: the contiguous part of `s` that starts after its leading
   * white space, whose outside is all white space and whose ends are not.
   */
  function Trim(s: string): (r: string)
    ensures LeadingSpaceCount(s) + |r| <= |s|
    ensures r == s[LeadingSpaceCount(s)..LeadingSpaceCount(s) + |r|]
    ensures forall i :: 0 <= i < LeadingSpaceCount(s) ==> IsJsSpace(s[i])
    ensures forall i :: LeadingSpaceCount(s) + |r| <= i < |s| ==> IsJsSpace(s[i])
    ensures r != [] ==> !IsJsSpace(r[0]) && !IsJsSpace(r[|r| - 1])
  {
    TrimSlice(s, TrimStart(s));
    TrimEnd(TrimStart(s))
  }

  /** Trimming the end of a suffix of `s` leaves a slice of `s` followed only by white space. */
  lemma TrimSlice(s: string, front: string)
    requires |front| <= |s| && front == s[|s| - |front|..]
    ensures var r := TrimEnd(front);
            && |s| - |front| + |r| <= |s|
            && r == s[|s| - |front|..|s| - |front| + |r|]
            && forall i :: |s| - |front| + |r| <= i < |s| ==> IsJsSpace(s[i])
  {
    var r := TrimEnd(front);
    var k := |s| - |front|;
    forall i | k + |r| <= i < |s|
      ensures IsJsSpace(s[i])
    {
      assert s[i] == front[i - k];
    }
  }

  /* ---------- split(sep) ---------- */

  /**
   * `s.split(sep)` for a one-character separator: the pieces between
   * separators, at least one, possibly empty, none containing the separator.
   */
  function Split(s: string, sep: char): (parts: seq<string>)
    ensures |parts| >= 1
    ensures forall i :: 0 <= i < |parts| ==> sep !in parts[i]
    decreases |s|
  {
    if |s| == 0 then [""]
    else
      var rest := Split(s[1..], sep);
      if s[0] == sep then [""] + rest
      else [[s[0]] + rest[0]] + rest[1..]
  }

  /** `parts.join(sep)`. */
  function Join(parts: seq<string>, sep: char): string
    requires |parts| >= 1
  {
    if |parts| == 1 then parts[0] else parts[0] + [sep] + Join(parts[1..], sep)
  }

  /** Splitting loses nothing: joining the pieces again gives back the string. */
  lemma {:induction false} JoinSplit(s: string, sep: char)
    ensures Join(Split(s, sep), sep) == s
    decreases |s|
  {
    if |s| > 0 {
      var rest := Split(s[1..], sep);
      var parts := Split(s, sep);
      JoinSplit(s[1..], sep);
      if s[0] == sep {
        assert parts[1..] == rest;
        assert Join(parts, sep) == "" + [sep] + s[1..];
      } else if |rest| == 1 {
        assert parts == [[s[0]] + rest[0]];
      } else {
        assert parts[1..] == rest[1..];
        assert Join(parts, sep) == [s[0]] + rest[0] + [sep] + Join(rest[1..], sep);
      }
    }
  }

  /**
   * The last piece of `s.split(sep)` (what `pop()` returns) is the part of
   * `s` after its last separator, or all of `s` when there is none: a
   * separator-free suffix that is either all of `s` or preceded by `sep`.
   */
  lemma {:induction false} SplitLast(s: string, sep: char)
    ensures var parts := Split(s, sep);
            var last := parts[|parts| - 1];
            |last| <= |s| && last == s[|s| - |last|..]
            && (|last| < |s| ==> s[|s| - |last| - 1] == sep)
    decreases |s|
  {
    if |s| > 0 {
      var rest := Split(s[1..], sep);
      SplitLast(s[1..], sep);
      var last := rest[|rest| - 1];
      assert s[1..][|s| - 1 - |last|..] == s[|s| - |last|..];
      if s[0] != sep && |rest| == 1 {
        JoinSplit(s[1..], sep);
        assert rest[0] == s[1..];
        assert [s[0]] + s[1..] == s;
      } else if s[0] != sep && |last| == |s| - 1 {
        // The last of several pieces cannot be the whole of s[1..]:
        // joining puts a separator before it.
        JoinSplit(s[1..], sep);
        JoinEndsWithLast(rest, sep);
        assert false;
      }
    }
  }

  /** Joining several pieces puts a separator right before the last one. */
  lemma {:induction false} JoinEndsWithLast(parts: seq<string>, sep: char)
    requires |parts| >= 2
    ensures var j := Join(parts, sep);
            var last := parts[|parts| - 1];
            |j| > |last| && j[|j| - |last|..] == last && j[|j| - |last| - 1] == sep
    decreases |parts|
  {
    var j := Join(parts, sep);
    var last := parts[|parts| - 1];
    if |parts| == 2 {
      assert Join(parts[1..], sep) == parts[1];
      assert j == parts[0] + [sep] + parts[1];
    } else {
      JoinEndsWithLast(parts[1..], sep);
      var k := Join(parts[1..], sep);
      assert j == parts[0] + [sep] + k;
      assert j[|j| - |k|..] == k;
    }
  }

  /* ---------- decimal rendering of integers ---------- */

  predicate IsDigit(c: char)
  {
    '0' <= c <= '9'
  }

  predicate AllDigits(s: string)
  {
    forall i :: 0 <= i < |s| ==> IsDigit(s[i])
  }

  /** The decimal digit for `d`. */
  function DigitChar(d: nat): (c: char)
    requires d < 10
    ensures IsDigit(c) && (c as int) - ('0' as int) == d
  {
    ('0' as int + d) as char
  }

  /** The decimal digits of `n`, most significant first, without leading zeros. */
  function NatToString(n: nat): (s: string)
    ensures |s| >= 1 && AllDigits(s)
    ensures s[0] == '0' ==> n == 0
    decreases n
  {
    if n < 10 then [DigitChar(n)] else NatToString(n / 10) + [DigitChar(n % 10)]
  }

  /** The value of a string of decimal digits. */
  function DigitsValue(s: string): nat
    requires AllDigits(s)
    decreases |s|
  {
    if s == [] then 0
    else DigitsValue(s[..|s| - 1]) * 10 + ((s[|s| - 1] as int) - ('0' as int))
  }

  lemma {:induction false} NatToStringRoundTrip(n: nat)
    ensures DigitsValue(NatToString(n)) == n
    decreases n
  {
    if n >= 10 {
      NatToStringRoundTrip(n / 10);
      var s := NatToString(n);
      assert s[..|s| - 1] == NatToString(n / 10);
      assert DigitsValue(s) == DigitsValue(NatToString(n / 10)) * 10 + n % 10;
    }
  }

  /**
   * How a template literal renders an integer-valued number of magnitude
   * below 10^21: an optional minus sign, then the decimal digits. From 10^21
   * on JavaScript switches to exponent form, which this function does not
   * follow.
   */
  function IntToString(i: int): string
  {
    if i < 0 then "-" + NatToString(-i) else NatToString(i)
  }

  /** Reads back a rendered integer: an optional minus sign followed by digits. */
  function ParseInt(s: string): Option<int>
  {
    if |s| >= 2 && s[0] == '-' && AllDigits(s[1..]) then
      var magnitude: int := DigitsValue(s[1..]);
      Some(-magnitude)
    else if |s| >= 1 && AllDigits(s) then Some(DigitsValue(s))
    else None
  }

  /** The rendering of an integer is read back as the same integer. */
  lemma {:induction false} IntToStringRoundTrip(i: int)
    ensures ParseInt(IntToString(i)) == Some(i)
  {
    if i < 0 {
      var digits := NatToString(-i);
      var s := "-" + digits;
      NatToStringRoundTrip(-i);
      assert s[0] == '-' && s[1..] == digits;
    } else {
      var digits := NatToString(i);
      NatToStringRoundTrip(i);
      assert IsDigit(digits[0]);
    }
  }
}
