/**
 * `int.TryParse(string?, out int)` with its default `NumberStyles.Integer`:
 * optional leading and trailing white space (U+0009..U+000D and space), an
 * optional leading `+` or `-`, at least one decimal digit, and a value that
 * fits a 32-bit signed integer.
 */
module IntParse {
  import opened Wrappers

  const Int32Min: int := -0x8000_0000
  const Int32Max: int := 0x7FFF_FFFF

  predicate IsNumberWhite(c: char) {
    ('\U{9}' <= c <= '\U{D}') || c == ' '
  }

  predicate IsDigit(c: char) {
    '0' <= c <= '9'
  }

  predicate AllDigits(s: string) {
    forall i :: 0 <= i < |s| ==> IsDigit(s[i])
  }

  function DigitValue(c: char): nat
    requires IsDigit(c)
  {
    c as int - '0' as int
  }

  /** The number a run of decimal digits denotes, most significant first. */
  function DigitsValue(ds: string): nat
    requires AllDigits(ds)
  {
    if ds == [] then 0
    else DigitsValue(ds[..|ds| - 1]) * 10 + DigitValue(ds[|ds| - 1])
  }

  function StripLeadingWhite(s: string): (r: string)
    ensures |r| <= |s|
    ensures r == [] || !IsNumberWhite(r[0])
  {
    if s != [] && IsNumberWhite(s[0]) then StripLeadingWhite(s[1..]) else s
  }

  function StripTrailingWhite(s: string): (r: string)
    ensures |r| <= |s|
    ensures r == [] || !IsNumberWhite(r[|r| - 1])
  {
    if s != [] && IsNumberWhite(s[|s| - 1]) then StripTrailingWhite(s[..|s| - 1]) else s
  }

  /** The signed value of an optionally signed digit run, or None when it is not one. */
  function SignedValue(t: string): Option<int> {
    if t != [] && (t[0] == '-' || t[0] == '+') then
      var ds := t[1..];
      if ds != [] && AllDigits(ds) then
        var v: int := DigitsValue(ds);
        Some(if t[0] == '-' then -v else v)
      else None
    else if t != [] && AllDigits(t) then Some(DigitsValue(t))
    else None
  }

  /** `int.TryParse(s, out v)`: Some(v) on success, None when it returns false. */
  function ParseInt32(s: Option<string>): (r: Option<int>)
    ensures r.Some? ==> Int32Min <= r.value <= Int32Max
    ensures s.None? ==> r.None?
  {
    match s
    case None => None
    case Some(text) =>
      match SignedValue(StripTrailingWhite(StripLeadingWhite(text)))
      case Some(v) => if Int32Min <= v <= Int32Max then Some(v) else None
      case None => None
  }

  /** The decimal digits of `n`, without leading zeros. */
  function ShowNat(n: nat): (ds: string)
    ensures ds != [] && AllDigits(ds)
  {
    if n < 10 then ['0' + n as char]
    else ShowNat(n / 10) + ['0' + (n % 10) as char]
  }

  /** `int.ToString()` in the invariant culture. */
  function Show(n: int): string {
    if n < 0 then "-" + ShowNat(-n) else ShowNat(n)
  }

  lemma {:induction false} DigitsValueOfShowNat(n: nat)
    ensures DigitsValue(ShowNat(n)) == n
  {
    if n >= 10 {
      var ds := ShowNat(n);
      assert ds[..|ds| - 1] == ShowNat(n / 10);
      DigitsValueOfShowNat(n / 10);
    }
  }

  /** Parsing the decimal text of any 32-bit integer gives that integer back. */
  lemma {:induction false} ParseShowRoundTrip(n: int)
    requires Int32Min <= n <= Int32Max
    ensures ParseInt32(Some(Show(n))) == Some(n)
  {
    var s := Show(n);
    assert StripLeadingWhite(s) == s;
    assert StripTrailingWhite(s) == s;
    if n < 0 {
      assert s[1..] == ShowNat(-n);
      DigitsValueOfShowNat(-n);
    } else {
      DigitsValueOfShowNat(n);
    }
  }
}
