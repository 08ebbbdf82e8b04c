/** The pieces of Python's `str` and `float()` semantics that the feed sanitisation uses:
    `str.strip()`, `str.replace(sub, rep)` and the decimal subset of `float(str)`. */
module PyText {
  import opened Wrappers

  /** `str.isspace()` for one character: the characters Python treats as whitespace. */
  predicate IsSpace(c: char) {
    var n := c as int;
    (9 <= n <= 13) || (0x1C <= n <= 0x20) || n == 0x85 || n == 0xA0 || n == 0x1680
    || (0x2000 <= n <= 0x200A) || n == 0x2028 || n == 0x2029 || n == 0x202F
    || n == 0x205F || n == 0x3000
  }

  /** The number of whitespace characters at the start of `s`. */
  function LeadingSpaces(s: string): (n: nat)
    ensures n <= |s|
    ensures forall i :: 0 <= i < n ==> IsSpace(s[i])
    ensures n < |s| ==> !IsSpace(s[n])
  {
    if |s| > 0 && IsSpace(s[0]) then 1 + LeadingSpaces(s[1..]) else 0
  }

  /** The number of whitespace characters at the end of `s`. */
  function TrailingSpaces(s: string): (n: nat)
    ensures n <= |s|
    ensures forall i :: |s| - n <= i < |s| ==> IsSpace(s[i])
    ensures n < |s| ==> !IsSpace(s[|s| - n - 1])
  {
    if |s| > 0 && IsSpace(s[|s| - 1]) then 1 + TrailingSpaces(s[..|s| - 1]) else 0
  }

  /** `s.strip()`: drop leading and trailing whitespace. */
  function Strip(s: string): string {
    var l := s[LeadingSpaces(s)..];
    l[..|l| - TrailingSpaces(l)]
  }

  /** The stripped text is a slice of the input, only whitespace was removed around it,
      and it neither starts nor ends with whitespace. */
  lemma StripIsTrimmedSlice(s: string) returns (lo: nat, hi: nat)
    ensures lo <= hi <= |s| && Strip(s) == s[lo..hi]
    ensures forall i :: 0 <= i < lo ==> IsSpace(s[i])
    ensures forall i :: hi <= i < |s| ==> IsSpace(s[i])
    ensures Strip(s) != [] ==> !IsSpace(s[lo]) && !IsSpace(s[hi - 1])
  {
    lo := LeadingSpaces(s);
    var l := s[lo..];
    var t := TrailingSpaces(l);
    hi := |s| - t;
    assert Strip(s) == l[..|l| - t] == s[lo..hi];
    forall i | hi <= i < |s| ensures IsSpace(s[i]) {
      assert s[i] == l[i - lo] && IsSpace(l[i - lo]);
    }
    if hi > lo {
      assert s[lo] == l[0] && s[hi - 1] == l[|l| - t - 1];
    }
  }

  /** A character absent from the text is absent from the stripped text. */
  lemma StripKeepsAbsent(s: string, c: char)
    requires forall i :: 0 <= i < |s| ==> s[i] != c
    ensures forall i :: 0 <= i < |Strip(s)| ==> Strip(s)[i] != c
  {
    var lo, hi := StripIsTrimmedSlice(s);
    forall i | 0 <= i < |Strip(s)| ensures Strip(s)[i] != c {
      assert Strip(s)[i] == s[lo + i];
    }
  }

  /** Text that neither starts nor ends with whitespace is left alone by `strip`. */
  lemma StripUnchanged(s: string)
    requires s != [] ==> !IsSpace(s[0]) && !IsSpace(s[|s| - 1])
    ensures Strip(s) == s
  {
    assert LeadingSpaces(s) == 0;
    assert s[0..] == s;
    assert TrailingSpaces(s) == 0;
  }

  /** `s.replace(sub, rep)`: every non-overlapping occurrence of `sub`, scanning left to right,
      is replaced by `rep`. */
  function Replace(s: string, sub: string, rep: string): string
    requires |sub| > 0
    decreases |s|
  {
    if |s| < |sub| then s
    else if s[..|sub|] == sub then rep + Replace(s[|sub|..], sub, rep)
    else [s[0]] + Replace(s[1..], sub, rep)
  }

  /** Replacing one character by another changes exactly the occurrences of that character. */
  lemma {:induction false} ReplaceChar(s: string, c: char, d: char)
    ensures |Replace(s, [c], [d])| == |s|
    ensures forall i :: 0 <= i < |s| ==> Replace(s, [c], [d])[i] == if s[i] == c then d else s[i]
    decreases |s|
  {
    if |s| > 0 {
      ReplaceChar(s[1..], c, d);
      var rest := Replace(s[1..], [c], [d]);
      if s[..1] == [c] {
        assert Replace(s, [c], [d]) == [d] + rest;
      } else {
        assert s[0] != c by { assert s[..1] == [s[0]]; }
        assert Replace(s, [c], [d]) == [s[0]] + rest;
      }
    }
  }

  /** `sub` occurs in `s` starting at index `i`. */
  predicate OccursAt(s: string, sub: string, i: int) {
    0 <= i && i + |sub| <= |s| && s[i..i + |sub|] == sub
  }

  /** A pattern that does not occur leaves the text unchanged. */
  lemma {:induction false} ReplaceAbsent(s: string, sub: string, rep: string)
    requires |sub| > 0
    requires forall i :: !OccursAt(s, sub, i)
    ensures Replace(s, sub, rep) == s
    decreases |s|
  {
    if |s| >= |sub| {
      assert !OccursAt(s, sub, 0);
      assert s[0..|sub|] == s[..|sub|];
      forall i ensures !OccursAt(s[1..], sub, i) {
        if 0 <= i && i + |sub| <= |s| - 1 {
          assert !OccursAt(s, sub, i + 1);
          assert s[1..][i..i + |sub|] == s[i + 1..i + 1 + |sub|];
        }
      }
      ReplaceAbsent(s[1..], sub, rep);
      assert [s[0]] + s[1..] == s;
    }
  }

  /** Replacing with the empty string never lengthens the text. */
  lemma {:induction false} ReplaceByEmptyShrinks(s: string, sub: string)
    requires |sub| > 0
    ensures |Replace(s, sub, "")| <= |s|
    decreases |s|
  {
    if |s| >= |sub| {
      if s[..|sub|] == sub {
        ReplaceByEmptyShrinks(s[|sub|..], sub);
      } else {
        ReplaceByEmptyShrinks(s[1..], sub);
      }
    }
  }

  predicate IsDigit(c: char) { '0' <= c <= '9' }

  predicate AllDigits(s: string) { forall i :: 0 <= i < |s| ==> IsDigit(s[i]) }

  /** The natural number written by a string of decimal digits. */
  function DigitsValue(ds: string): nat
    requires AllDigits(ds)
  {
    if ds == [] then 0 else 10 * DigitsValue(ds[..|ds| - 1]) + (ds[|ds| - 1] as int - '0' as int)
  }

  function Pow10(n: nat): (p: nat)
    ensures p >= 1
  {
    if n == 0 then 1 else 10 * Pow10(n - 1)
  }

  /** Index of the first '.' in `s`, or `|s|` when there is none. */
  function DotIndex(s: string): (k: nat)
    ensures k <= |s|
    ensures forall i :: 0 <= i < k ==> s[i] != '.'
    ensures k < |s| ==> s[k] == '.'
  {
    if s == [] then 0 else if s[0] == '.' then 0 else 1 + DotIndex(s[1..])
  }

  /** The number written by the digits `whole`, a point, and the digits `frac`. */
  function DecimalValue(whole: string, frac: string): real
    requires AllDigits(whole) && AllDigits(frac)
  {
    DigitsValue(whole) as real + DigitsValue(frac) as real / Pow10(|frac|) as real
  }

  /** An unsigned decimal: digits, optionally one '.', optionally more digits, at least one
      digit in all (`"12"`, `"1."`, `".5"`, `"1.23"`). */
  function ParseUnsigned(body: string): Option<real> {
    var k := DotIndex(body);
    var whole := body[..k];
    var frac := if k < |body| then body[k + 1..] else "";
    if AllDigits(whole) && AllDigits(frac) && |whole| + |frac| > 0 then
      Some(DecimalValue(whole, frac))
    else None
  }

  /** An optional '+' or '-' sign followed by an unsigned decimal. */
  function ParseDecimal(s: string): Option<real> {
    if |s| > 0 && (s[0] == '+' || s[0] == '-') then
      match ParseUnsigned(s[1..])
      case Some(x) => Some(if s[0] == '-' then -x else x)
      case None => None
    else ParseUnsigned(s)
  }

  /** `float(s)` on a string, restricted to plain decimals: surrounding whitespace is ignored,
      anything else that is not a signed decimal is a `ValueError` (here `None`). */
  function ParseFloat(s: string): Option<real> {
    ParseDecimal(Strip(s))
  }

  /** An unsigned decimal is made only of digits and at most one '.', with a digit in it. */
  lemma UnsignedShape(body: string)
    requires ParseUnsigned(body).Some?
    ensures forall i :: 0 <= i < |body| ==> IsDigit(body[i]) || body[i] == '.'
    ensures exists i :: 0 <= i < |body| && IsDigit(body[i])
    ensures forall i, j :: 0 <= i < j < |body| && body[i] == '.' ==> body[j] != '.'
  {
    var k := DotIndex(body);
    var whole := body[..k];
    var frac := if k < |body| then body[k + 1..] else "";
    assert AllDigits(whole) && AllDigits(frac) && |whole| + |frac| > 0;
    forall i | 0 <= i < |body| && i != k ensures IsDigit(body[i]) {
      if i < k { assert body[i] == whole[i]; }
      else { assert body[i] == frac[i - k - 1]; }
    }
    if k > 0 { assert body[0] == whole[0]; }
    else { assert body[1] == frac[0]; }
  }

  /** Whatever parses is non-empty and made only of digits, at most one '.', and a leading sign. */
  lemma ParseDecimalShape(s: string)
    requires ParseDecimal(s).Some?
    ensures |s| > 0
    ensures forall i :: 0 <= i < |s| ==> IsDigit(s[i]) || s[i] == '.' || (i == 0 && (s[i] == '+' || s[i] == '-'))
    ensures exists i :: 0 <= i < |s| && IsDigit(s[i])
    ensures forall i, j :: 0 <= i < j < |s| && s[i] == '.' ==> s[j] != '.'
  {
    if |s| > 0 && (s[0] == '+' || s[0] == '-') {
      var body := s[1..];
      UnsignedShape(body);
      var j :| 0 <= j < |body| && IsDigit(body[j]);
      assert s[j + 1] == body[j];
      forall i | 1 <= i < |s| ensures IsDigit(s[i]) || s[i] == '.' {
        assert s[i] == body[i - 1];
      }
      forall i, j | 0 <= i < j < |s| && s[i] == '.' ensures s[j] != '.' {
        assert s[i] == body[i - 1] && s[j] == body[j - 1];
      }
    } else {
      UnsignedShape(s);
    }
  }

  /** Digits, a point and digits parse to the decimal they write. */
  lemma ParseUnsignedPoint(whole: string, frac: string)
    requires AllDigits(whole) && AllDigits(frac) && |whole| + |frac| > 0
    ensures ParseUnsigned(whole + "." + frac) == Some(DecimalValue(whole, frac))
  {
    var body := whole + "." + frac;
    assert forall i :: 0 <= i < |whole| ==> body[i] == whole[i];
    assert body[|whole|] == '.';
    var k := DotIndex(body);
    assert k == |whole|;
    assert body[..k] == whole;
    assert body[k + 1..] == frac;
  }

  /** A plain digit string parses to the number it writes, and so does its negation. */
  lemma ParseDigits(ds: string)
    requires ds != [] && AllDigits(ds)
    ensures ParseDecimal(ds) == Some(DigitsValue(ds) as real)
    ensures ParseDecimal("-" + ds) == Some(-(DigitsValue(ds) as real))
  {
    assert forall i :: 0 <= i < |ds| ==> ds[i] != '.';
    assert DotIndex(ds) == |ds|;
    assert ds[..|ds|] == ds;
    assert DecimalValue(ds, "") == DigitsValue(ds) as real by {
      assert DigitsValue("") == 0 && Pow10(0) == 1;
    }
    assert ParseUnsigned(ds) == Some(DigitsValue(ds) as real);
    assert IsDigit(ds[0]);
    var neg := "-" + ds;
    assert neg[0] == '-' && neg[1..] == ds;
  }
}
