/**
 * The .NET string operations the caption and configuration code relies on,
 * stated at the level of characters: `char.IsWhiteSpace`, `string.Trim`,
 * `string.IsNullOrWhiteSpace`, `string.Split(' ', RemoveEmptyEntries)`,
 * ordinal ignore-case comparison and `char.IsLower`.
 */
module Text {
  import opened Wrappers

  /** `char.IsWhiteSpace`: the Unicode space, line and paragraph separators and U+0009..U+000D, U+0085. */
  predicate IsWhiteSpace(c: char) {
    || ('\U{9}' <= c <= '\U{D}')
    || c == ' ' || c == '\U{85}' || c == '\U{A0}' || c == '\U{1680}'
    || ('\U{2000}' <= c <= '\U{200A}')
    || c == '\U{2028}' || c == '\U{2029}' || c == '\U{202F}' || c == '\U{205F}' || c == '\U{3000}'
  }

  /** `string.IsNullOrWhiteSpace` on a non-null string. */
  predicate IsBlank(s: string) {
    forall i :: 0 <= i < |s| ==> IsWhiteSpace(s[i])
  }

  /** `string.IsNullOrWhiteSpace` on a nullable string. */
  predicate IsNullOrBlank(s: Option<string>) {
    s.None? || IsBlank(s.value)
  }

  /** A string with no white space at either end, as `Trim` returns it. */
  predicate IsTrimmed(s: string) {
    s == [] || (!IsWhiteSpace(s[0]) && !IsWhiteSpace(s[|s| - 1]))
  }

  /** The UTF-16 code units of a character: two (a surrogate pair) outside the Basic Multilingual Plane. */
  function Utf16Units(c: char): nat {
    if c as int >= 0x1_0000 then 2 else 1
  }

  /** `string.Length`: the number of UTF-16 code units, which counts a character above U+FFFF twice. */
  function Utf16Length(s: string): (n: nat)
    ensures |s| <= n <= 2 * |s|
  {
    if s == [] then 0 else Utf16Length(s[..|s| - 1]) + Utf16Units(s[|s| - 1])
  }

  /** The UTF-16 encoding of one character: itself, or its high and low surrogates. */
  function CodeUnits(c: char): (u: seq<int>)
    ensures |u| == Utf16Units(c)
  {
    if c as int < 0x1_0000 then [c as int]
    else [0xD800 + (c as int - 0x1_0000) / 0x400, 0xDC00 + (c as int - 0x1_0000) % 0x400]
  }

  /** The UTF-16 encoding of a string. */
  function Utf16(s: string): (u: seq<int>)
    ensures |u| == Utf16Length(s)
  {
    if s == [] then []
    else
      assert [s[0]] + s[1..] == s && [s[0]][..0] == [];
      Utf16LengthConcat([s[0]], s[1..]);
      CodeUnits(s[0]) + Utf16(s[1..])
  }

  /** Ordinal comparison of code-unit sequences (`<= 0`): unit by unit, a prefix first. */
  predicate UnitsLeq(u: seq<int>, w: seq<int>)
    decreases |u|
  {
    u == [] || (w != [] && (u[0] < w[0] || (u[0] == w[0] && UnitsLeq(u[1..], w[1..]))))
  }

  /**
   * Where ordinal comparison of code units puts a character: the Basic
   * Multilingual Plane below the surrogates, then every character above U+FFFF
   * (its high surrogate is at most 0xDBFF), then U+E000 to U+FFFF.
   */
  function OrdinalKey(c: char): int {
    if 0xE000 <= c as int < 0x1_0000 then c as int + 0x11_0000 else c as int
  }

  /** Distinct characters have distinct keys. */
  lemma OrdinalKeyInjective(c: char, d: char)
    ensures OrdinalKey(c) == OrdinalKey(d) <==> c == d
  {
  }

  /**
   * Behind distinct characters, whatever follows, the code units compare as
   * the characters' keys do: neither encoding is a prefix of the other.
   */
  lemma {:induction false} CodeUnitsOrder(c: char, d: char, x: seq<int>, y: seq<int>)
    requires c != d
    ensures UnitsLeq(CodeUnits(c) + x, CodeUnits(d) + y) <==> OrdinalKey(c) < OrdinalKey(d)
  {
    var u, w := CodeUnits(c) + x, CodeUnits(d) + y;
    assert u[0] == CodeUnits(c)[0] && w[0] == CodeUnits(d)[0];
    if c as int >= 0x1_0000 && d as int >= 0x1_0000 {
      var vc, vd := c as int - 0x1_0000, d as int - 0x1_0000;
      assert vc == 0x400 * (vc / 0x400) + vc % 0x400;
      assert vd == 0x400 * (vd / 0x400) + vd % 0x400;
      if vc / 0x400 == vd / 0x400 {
        assert u[1..][0] == CodeUnits(c)[1] && w[1..][0] == CodeUnits(d)[1];
        assert vc % 0x400 != vd % 0x400;
      }
    }
  }

  /** A shared encoded prefix does not change the comparison. */
  lemma {:induction false} UnitsLeqCommonPrefix(p: seq<int>, x: seq<int>, y: seq<int>)
    ensures UnitsLeq(p + x, p + y) <==> UnitsLeq(x, y)
    decreases |p|
  {
    if p != [] {
      assert (p + x)[1..] == p[1..] + x && (p + y)[1..] == p[1..] + y;
      UnitsLeqCommonPrefix(p[1..], x, y);
    } else {
      assert p + x == x && p + y == y;
    }
  }

  /** The code units of a concatenation are those of its parts. */
  lemma {:induction false} Utf16LengthConcat(a: string, b: string)
    ensures Utf16Length(a + b) == Utf16Length(a) + Utf16Length(b)
  {
    if b != [] {
      assert (a + b)[..|a + b| - 1] == a + b[..|b| - 1];
      Utf16LengthConcat(a, b[..|b| - 1]);
    } else {
      assert a + b == a;
    }
  }

  /** Number of white-space characters at the start of `s`. */
  function LeadingWhiteSpace(s: string): (n: nat)
    ensures n <= |s|
    ensures IsBlank(s[..n])
    ensures n < |s| ==> !IsWhiteSpace(s[n])
  {
    if s == [] || !IsWhiteSpace(s[0]) then 0
    else
      var n := 1 + LeadingWhiteSpace(s[1..]);
      assert s[..n] == [s[0]] + s[1..][..n - 1];
      n
  }

  /** Number of white-space characters at the end of `s`. */
  function TrailingWhiteSpace(s: string): (n: nat)
    ensures n <= |s|
    ensures IsBlank(s[|s| - n..])
    ensures n < |s| ==> !IsWhiteSpace(s[|s| - n - 1])
  {
    if s == [] || !IsWhiteSpace(s[|s| - 1]) then 0
    else
      var t := s[..|s| - 1];
      var n := 1 + TrailingWhiteSpace(t);
      assert s[|s| - n..] == t[|t| - (n - 1)..] + [s[|s| - 1]];
      n
  }

  /** `string.Trim()`: the longest infix with no white space at either end. */
  function Trim(s: string): (r: string)
    ensures IsTrimmed(r)
    ensures |r| <= |s|
    ensures r == [] <==> IsBlank(s)
  {
    var a := LeadingWhiteSpace(s);
    var b := TrailingWhiteSpace(s[a..]);
    TrimBounds(s, a, b);
    s[a..|s| - b]
  }

  lemma {:induction false} TrimBounds(s: string, a: nat, b: nat)
    requires a == LeadingWhiteSpace(s) && b == TrailingWhiteSpace(s[a..])
    ensures a <= |s| - b
    ensures IsTrimmed(s[a..|s| - b])
    ensures s[a..|s| - b] == [] <==> IsBlank(s)
  {
    assert a + b <= |s| by {
      assert b <= |s[a..]|;
    }
    if a + b < |s| {
      TrimBoundsNonEmpty(s, a, b);
    } else {
      TrimBoundsEmpty(s, a, b);
    }
  }

  lemma {:induction false} TrimBoundsNonEmpty(s: string, a: nat, b: nat)
    requires a == LeadingWhiteSpace(s) && b == TrailingWhiteSpace(s[a..])
    requires a + b < |s|
    ensures IsTrimmed(s[a..|s| - b]) && s[a..|s| - b] != [] && !IsBlank(s)
  {
    var rest := s[a..];
    var r := s[a..|s| - b];
    assert r[0] == s[a];
    assert r[|r| - 1] == rest[|rest| - b - 1];
    assert !IsWhiteSpace(s[a]);
  }

  lemma {:induction false} TrimBoundsEmpty(s: string, a: nat, b: nat)
    requires a == LeadingWhiteSpace(s) && b == TrailingWhiteSpace(s[a..])
    requires a + b == |s|
    ensures s[a..|s| - b] == [] && IsTrimmed(s[a..|s| - b]) && IsBlank(s)
  {
    var rest := s[a..];
    assert rest[|rest| - b..] == rest;
    assert IsBlank(rest);
    assert a == |s|;
    assert s[..a] == s;
  }

  lemma {:induction false} TrimmedIsFixedPoint(s: string)
    requires IsTrimmed(s)
    ensures Trim(s) == s
  {
    assert LeadingWhiteSpace(s) == 0;
    assert s[0..] == s;
  }

  /** Trimming keeps only characters of the original. */
  lemma {:induction false} TrimSubsequence(s: string)
    ensures forall c :: c in Trim(s) ==> c in s
  {
    var a := LeadingWhiteSpace(s);
    var b := TrailingWhiteSpace(s[a..]);
    TrimBounds(s, a, b);
    var r := s[a..|s| - b];
    forall c | c in r ensures c in s {
      var i :| 0 <= i < |r| && r[i] == c;
      assert s[a + i] == c;
    }
  }

  /** Appending white space to a trimmed, non-empty string does not change its trimmed form. */
  lemma {:induction false} TrimOfAppended(s: string, t: string)
    requires IsTrimmed(s) && s != [] && IsBlank(t)
    ensures Trim(s + t) == s
  {
    var u := s + t;
    assert LeadingWhiteSpace(u) == 0;
    assert u[0..] == u;
    TrailingOfBlankSuffix(s, t);
    assert u[..|u| - |t|] == s;
  }

  lemma {:induction false} TrailingOfBlankSuffix(s: string, t: string)
    requires IsTrimmed(s) && s != [] && IsBlank(t)
    ensures TrailingWhiteSpace(s + t) == |t|
    decreases |t|
  {
    if t == [] {
      assert s + t == s;
    } else {
      var t' := t[..|t| - 1];
      assert (s + t)[..|s + t| - 1] == s + t';
      TrailingOfBlankSuffix(s, t');
    }
  }

  /** Whether `s` ends with the character `c` (`EndsWith(string, Ordinal)` with a one-character string). */
  predicate EndsWith(s: string, c: char) {
    |s| > 0 && s[|s| - 1] == c
  }

  /** Simple upper-case mapping used by ordinal ignore-case comparison, over ASCII and Latin-1. */
  function FoldCase(c: char): (u: char)
    ensures 'a' <= c <= 'z' ==> u as int == c as int - 32
    ensures !IsLetterWithCase(c) ==> u == c
  {
    if 'a' <= c <= 'z' then (c as int - 32) as char
    else if 'à' <= c <= 'þ' && c != '÷' then (c as int - 32) as char
    else if c == 'ÿ' then 'Ÿ'
    else if c == 'µ' then 'Μ'
    else c
  }

  /** Every character case-folded. */
  function FoldAll(s: string): (r: string)
    ensures |r| == |s| && forall i :: 0 <= i < |s| ==> r[i] == FoldCase(s[i])
  {
    seq(|s|, i requires 0 <= i < |s| => FoldCase(s[i]))
  }

  /** Characters that `FoldCase` may change. */
  predicate IsLetterWithCase(c: char) {
    ('a' <= c <= 'z') || ('à' <= c <= 'ÿ' && c != '÷') || c == 'µ'
  }

  /** `string.Equals(a, b, StringComparison.OrdinalIgnoreCase)`. */
  predicate EqualsIgnoreCase(a: string, b: string) {
    |a| == |b| && forall i :: 0 <= i < |a| ==> FoldCase(a[i]) == FoldCase(b[i])
  }

  /** Strings equal ignoring case have the same number of UTF-16 code units: case folding stays in the same plane. */
  lemma {:induction false} EqualsIgnoreCaseUtf16Length(a: string, b: string)
    requires EqualsIgnoreCase(a, b)
    ensures Utf16Length(a) == Utf16Length(b)
  {
    if a != [] {
      var n := |a| - 1;
      assert EqualsIgnoreCase(a[..n], b[..n]) by {
        forall i | 0 <= i < n ensures FoldCase(a[..n][i]) == FoldCase(b[..n][i]) {
          assert a[..n][i] == a[i] && b[..n][i] == b[i];
        }
      }
      EqualsIgnoreCaseUtf16Length(a[..n], b[..n]);
      assert FoldCase(a[n]) == FoldCase(b[n]);
      assert Utf16Units(FoldCase(a[n])) == Utf16Units(a[n]);
      assert Utf16Units(FoldCase(b[n])) == Utf16Units(b[n]);
    }
  }

  /** `s.StartsWith(prefix, StringComparison.OrdinalIgnoreCase)`. */
  predicate StartsWithIgnoreCase(s: string, prefix: string) {
    |prefix| <= |s| && EqualsIgnoreCase(s[..|prefix|], prefix)
  }

  lemma {:induction false} StartsWithIgnoreCaseOfConcat(prefix: string, rest: string)
    ensures StartsWithIgnoreCase(prefix + rest, prefix)
  {
    assert (prefix + rest)[..|prefix|] == prefix;
  }

  /** Ignore-case prefix is transitive. */
  lemma {:induction false} StartsWithIgnoreCaseTransitive(a: string, b: string, c: string)
    requires StartsWithIgnoreCase(a, b) && StartsWithIgnoreCase(b, c)
    ensures StartsWithIgnoreCase(a, c)
  {
    forall i | 0 <= i < |c| ensures FoldCase(a[..|c|][i]) == FoldCase(c[i]) {
      assert a[..|c|][i] == a[..|b|][i];
      assert FoldCase(a[..|b|][i]) == FoldCase(b[i]);
      assert b[..|c|][i] == b[i];
    }
  }

  /**
   * Once `s` starts with `prefix` ignoring case, `s` is longer in UTF-16 code
   * units exactly when it has more characters.
   */
  lemma {:induction false} LongerThanPrefix(s: string, prefix: string)
    requires StartsWithIgnoreCase(s, prefix)
    ensures |s| > |prefix| <==> Utf16Length(s) > Utf16Length(prefix)
  {
    var n := |prefix|;
    assert s == s[..n] + s[n..];
    Utf16LengthConcat(s[..n], s[n..]);
    EqualsIgnoreCaseUtf16Length(s[..n], prefix);
  }

  /** `char.IsLower` over ASCII and Latin-1. */
  predicate IsLower(c: char) {
    ('a' <= c <= 'z') || c == 'µ' || ('ß' <= c <= 'ö') || ('ø' <= c <= 'ÿ')
  }

  /** Number of characters before the first `sep` in `s` (all of `s` when there is none). */
  function IndexOf(s: string, sep: char): (n: nat)
    ensures n <= |s|
    ensures forall i :: 0 <= i < n ==> s[i] != sep
    ensures n < |s| ==> s[n] == sep
  {
    if s == [] || s[0] == sep then 0 else 1 + IndexOf(s[1..], sep)
  }

  /** `s.Split(sep, StringSplitOptions.RemoveEmptyEntries)`: the maximal runs of non-`sep` characters, in order. */
  function Split(s: string, sep: char): (parts: seq<string>)
    ensures forall k :: 0 <= k < |parts| ==> parts[k] != [] && sep !in parts[k]
    ensures s == [] ==> parts == []
    decreases |s|
  {
    if s == [] then []
    else if s[0] == sep then Split(s[1..], sep)
    else
      var n := IndexOf(s, sep);
      assert sep !in s[..n];
      if n == |s| then [s] else [s[..n]] + Split(s[n + 1..], sep)
  }

  lemma {:induction false} SplitLeadingSeparators(s: string, k: nat, sep: char)
    requires k <= |s| && forall i :: 0 <= i < k ==> s[i] == sep
    ensures Split(s, sep) == Split(s[k..], sep)
    decreases k
  {
    if k > 0 {
      assert s[1..][k - 1..] == s[k..];
      SplitLeadingSeparators(s[1..], k - 1, sep);
    }
  }

  /** Splitting two strings joined by one separator splits each side separately. */
  lemma {:induction false} SplitConcat(a: string, b: string, sep: char)
    ensures Split(a + [sep] + b, sep) == Split(a, sep) + Split(b, sep)
    decreases |a|
  {
    var s := a + [sep] + b;
    if a == [] {
      assert s[1..] == b;
    } else if a[0] == sep {
      assert s[1..] == a[1..] + [sep] + b;
      SplitConcat(a[1..], b, sep);
    } else {
      var n := IndexOf(a, sep);
      assert s[..n] == a[..n];
      if n == |a| {
        assert s[..n] == a;
        assert IndexOf(s, sep) == n by { IndexOfPrefix(a, [sep] + b, sep); assert s == a + ([sep] + b); }
        assert s[n + 1..] == b;
      } else {
        assert IndexOf(s, sep) == n by { IndexOfPrefix(a, [sep] + b, sep); assert s == a + ([sep] + b); }
        assert s[n + 1..] == a[n + 1..] + [sep] + b;
        SplitConcat(a[n + 1..], b, sep);
      }
    }
  }

  lemma {:induction false} IndexOfPrefix(a: string, b: string, sep: char)
    requires IndexOf(a, sep) < |a| || (b != [] && b[0] == sep)
    ensures IndexOf(a + b, sep) == IndexOf(a, sep)
    decreases |a|
  {
    if a != [] && a[0] != sep {
      assert (a + b)[1..] == a[1..] + b;
      IndexOfPrefix(a[1..], b, sep);
    }
  }

  /** `text.Trim().Split(' ', RemoveEmptyEntries)`: the words the caption code works with. */
  function Words(s: string): (ws: seq<string>)
    ensures forall k :: 0 <= k < |ws| ==> ws[k] != [] && ' ' !in ws[k]
  {
    Split(Trim(s), ' ')
  }
}
