/** The few pieces of java.lang.String and Float behaviour the core relies on:
    blank tests, trim, UTF-16 length, ASCII case folding, prefix tests, and
    reading and writing decimal hour values. Characters are compared by code point. */
module JavaText {
  import opened Base

  // ---------------------------------------------------------------------
  // Whitespace, blank strings and trim
  // ---------------------------------------------------------------------

  /** Character.isWhitespace on the ASCII range: TAB, LF, VT, FF, CR, the
      four information separators U+001C..U+001F, and SPACE. */
  predicate IsWhitespace(c: char)
  {
    var n := c as int;
    n == 32 || 9 <= n <= 13 || 28 <= n <= 31
  }

  /** String.isBlank: every character is whitespace (the empty string too). */
  predicate IsBlank(s: string)
  {
    forall i :: 0 <= i < |s| ==> IsWhitespace(s[i])
  }

  /** The `s == null || s.isBlank()` test used throughout the Java classes. */
  predicate IsNullOrBlank(s: Option<string>)
  {
    s.None? || IsBlank(s.value)
  }

  /** String.trim removes every character whose code is at most U+0020. */
  predicate Trimmable(c: char)
  {
    c as int <= 32
  }

  /** Number of trimmable characters at the front of `s`. */
  function LeadingTrimmable(s: string): (n: nat)
    ensures n <= |s|
    ensures forall k :: 0 <= k < n ==> Trimmable(s[k])
    ensures n < |s| ==> !Trimmable(s[n])
  {
    if |s| == 0 || !Trimmable(s[0]) then 0 else 1 + LeadingTrimmable(s[1..])
  }

  /** Length of `s` once its trimmable tail is cut off. */
  function TrailingCut(s: string): (n: nat)
    ensures n <= |s|
    ensures forall k :: n <= k < |s| ==> Trimmable(s[k])
    ensures n > 0 ==> !Trimmable(s[n - 1])
  {
    if |s| == 0 || !Trimmable(s[|s| - 1]) then |s| else TrailingCut(s[..|s| - 1])
  }

  /** String.trim. */
  function Trim(s: string): (r: string)
    ensures |r| <= |s|
    ensures r != [] ==> !Trimmable(r[0]) && !Trimmable(r[|r| - 1])
    ensures |s| > 0 && !Trimmable(s[0]) && !Trimmable(s[|s| - 1]) ==> r == s
    ensures (forall i :: 0 <= i < |s| ==> Trimmable(s[i])) <==> r == []
  {
    var t := s[..TrailingCut(s)];
    t[LeadingTrimmable(t)..]
  }

  /** Every whitespace character is also one that trim removes. */
  lemma BlankTrimsToEmpty(s: string)
    requires IsBlank(s)
    ensures Trim(s) == []
  {
    forall i | 0 <= i < |s| ensures Trimmable(s[i]) {
      assert IsWhitespace(s[i]);
    }
  }

  /** String.length: the number of UTF-16 code units, where a character
      beyond U+FFFF takes a surrogate pair. */
  function Utf16Length(s: string): (n: nat)
    ensures |s| <= n <= 2 * |s|
    ensures (forall i :: 0 <= i < |s| ==> s[i] as int <= 0xFFFF) <==> n == |s|
  {
    if s == [] then 0
    else Utf16Length(s[..|s| - 1]) + (if s[|s| - 1] as int > 0xFFFF then 2 else 1)
  }

  // ---------------------------------------------------------------------
  // Case folding (ASCII letters only) and prefixes
  // ---------------------------------------------------------------------

  function ToUpperChar(c: char): char
  {
    if 'a' <= c <= 'z' then (c as int - 32) as char else c
  }

  function ToLowerChar(c: char): char
  {
    if 'A' <= c <= 'Z' then (c as int + 32) as char else c
  }

  /** String.toUpperCase(Locale.ROOT). */
  function ToUpper(s: string): (r: string)
    ensures |r| == |s|
  {
    seq(|s|, i requires 0 <= i < |s| => ToUpperChar(s[i]))
  }

  /** String.toLowerCase, and SQL LOWER(). */
  function ToLower(s: string): (r: string)
    ensures |r| == |s|
  {
    seq(|s|, i requires 0 <= i < |s| => ToLowerChar(s[i]))
  }

  /** String.equalsIgnoreCase between two non-null strings, which is also
      what `LOWER(a) = LOWER(b)` decides in SQL. */
  predicate EqualsIgnoreCase(a: string, b: string)
  {
    ToLower(a) == ToLower(b)
  }

  /** Upper-casing and lower-casing identify exactly the same strings, so
      the upper-cased keys of the grid check and the lower-cased user names
      of the directory agree on what counts as "the same, ignoring case". */
  lemma UpperAgreesWithLower(a: string, b: string)
    ensures ToUpper(a) == ToUpper(b) <==> ToLower(a) == ToLower(b)
  {
    if |a| == |b| {
      forall i | 0 <= i < |a|
        ensures ToUpperChar(a[i]) == ToUpperChar(b[i]) <==> ToLowerChar(a[i]) == ToLowerChar(b[i])
      {
      }
      if ToUpper(a) == ToUpper(b) {
        forall i | 0 <= i < |a| ensures ToLower(a)[i] == ToLower(b)[i] {
          assert ToUpper(a)[i] == ToUpper(b)[i];
        }
      }
      if ToLower(a) == ToLower(b) {
        forall i | 0 <= i < |a| ensures ToUpper(a)[i] == ToUpper(b)[i] {
          assert ToLower(a)[i] == ToLower(b)[i];
        }
      }
    }
  }

  /** String.startsWith. */
  predicate StartsWith(s: string, prefix: string)
  {
    |prefix| <= |s| && s[..|prefix|] == prefix
  }

  // ---------------------------------------------------------------------
  // Decimal numbers: Float.parseFloat / Double.parseDouble on plain
  // decimal literals, and Float.toString of a value held in tenths
  // ---------------------------------------------------------------------

  predicate IsDigit(c: char)
  {
    '0' <= c <= '9'
  }

  predicate AllDigits(s: string)
  {
    forall i :: 0 <= i < |s| ==> IsDigit(s[i])
  }

  function DigitChar(d: nat): char
    requires d < 10
  {
    ('0' as int + d) as char
  }

  /** The value of a string of decimal digits, most significant first. */
  function DigitsValue(s: string): nat
    requires AllDigits(s)
  {
    if s == [] then 0 else 10 * DigitsValue(s[..|s| - 1]) + (s[|s| - 1] as int - '0' as int)
  }

  /** x moved n decimal places to the right of the point. */
  function Shifted(x: real, n: nat): real
  {
    if n == 0 then x else Shifted(x, n - 1) / 10.0
  }

  /** Index of the first '.' in `s`, or |s| when there is none. */
  function DotIndex(s: string): (k: nat)
    ensures k <= |s|
    ensures k < |s| ==> s[k] == '.'
    ensures forall i :: 0 <= i < k ==> s[i] != '.'
  {
    if |s| == 0 || s[0] == '.' then 0 else 1 + DotIndex(s[1..])
  }

  /** An unsigned literal `digits`, `digits.`, `.digits` or `digits.digits`. */
  function ParseUnsignedDecimal(s: string): Option<real>
  {
    var k := DotIndex(s);
    var whole := s[..k];
    var frac := if k < |s| then s[k + 1..] else [];
    if AllDigits(whole) && AllDigits(frac) && |whole| + |frac| > 0 then
      Some(DigitsValue(whole) as real + Shifted(DigitsValue(frac) as real, |frac|))
    else
      None
  }

  /** Float.parseFloat / Double.parseDouble of an already trimmed string,
      restricted to an optional sign followed by a plain decimal literal;
      None stands for NumberFormatException. */
  function ParseDecimal(s: string): Option<real>
  {
    if |s| > 0 && (s[0] == '+' || s[0] == '-') then
      match ParseUnsignedDecimal(s[1..])
      case None => None
      case Some(v) => Some(if s[0] == '-' then -v else v)
    else
      ParseUnsignedDecimal(s)
  }

  /** Integer.toString of a non-negative number. */
  function NatToString(n: nat): (s: string)
    ensures |s| > 0 && AllDigits(s)
    ensures DigitsValue(s) == n
  {
    if n < 10 then [DigitChar(n)]
    else
      var s := NatToString(n / 10) + [DigitChar(n % 10)];
      assert s[..|s| - 1] == NatToString(n / 10);
      s
  }

  /** Float.toString(t / 10f): the whole part, a point and one decimal digit,
      with a leading minus sign for a negative value. */
  function FormatTenths(t: int): string
  {
    if t < 0 then "-" + UnsignedTenths(-t) else UnsignedTenths(t)
  }

  /** The digits of a / 10, a point and the tenths digit. */
  function UnsignedTenths(a: nat): (s: string)
    ensures |s| >= 3 && IsDigit(s[0]) && s[|s| - 1] == DigitChar(a % 10)
  {
    var w := NatToString(a / 10);
    w + "." + [DigitChar(a % 10)]
  }

  /** Reading back what FormatTenths wrote gives exactly t / 10. */
  lemma ParseFormatTenths(t: int)
    ensures ParseDecimal(FormatTenths(t)) == Some(t as real / 10.0)
  {
    if t < 0 {
      ParseFormatNegative(t);
    } else {
      ParseFormatNonNegative(t);
    }
  }

  lemma ParseFormatNonNegative(t: int)
    requires t >= 0
    ensures ParseDecimal(FormatTenths(t)) == Some(t as real / 10.0)
  {
    ParseUnsignedTenths(t);
    ParseSign(UnsignedTenths(t), t as real / 10.0);
  }

  lemma ParseFormatNegative(t: int)
    requires t < 0
    ensures ParseDecimal(FormatTenths(t)) == Some(t as real / 10.0)
  {
    ParseNegativeTenths(-t, FormatTenths(t));
    NegatedTenths(-t, t);
  }

  /** A value written with a minus sign reads back negated. */
  lemma ParseNegativeTenths(a: nat, s: string)
    requires s == "-" + UnsignedTenths(a)
    ensures ParseDecimal(s) == Some(-(a as real / 10.0))
  {
    ParseUnsignedTenths(a);
    ParseSign(UnsignedTenths(a), a as real / 10.0);
  }

  lemma NegatedTenths(a: nat, t: int)
    requires a == -t
    ensures -(a as real / 10.0) == t as real / 10.0
  {
  }

  /** A literal that starts with a digit reads as unsigned, and with a
      minus sign in front reads negated. */
  lemma ParseSign(body: string, v: real)
    requires |body| > 0 && IsDigit(body[0]) && ParseUnsignedDecimal(body) == Some(v)
    ensures ParseDecimal(body) == Some(v)
    ensures ParseDecimal("-" + body) == Some(-v)
  {
    assert ("-" + body)[1..] == body;
  }

  /** The unsigned part of a formatted value reads back as a / 10. */
  lemma ParseUnsignedTenths(a: nat)
    ensures ParseUnsignedDecimal(UnsignedTenths(a)) == Some(a as real / 10.0)
  {
    var w := NatToString(a / 10);
    var f := [DigitChar(a % 10)];
    var body := UnsignedTenths(a);
    assert body == w + "." + f;
    DotAfterDigits(w, f);
    assert body[..|w|] == w;
    assert body[|w| + 1..] == f;
    assert DigitsValue(f) == a % 10 by {
      assert f[..0] == [];
    }
    assert Shifted(DigitsValue(f) as real, |f|) == (a % 10) as real / 10.0;
  }

  /** The first '.' after a run of digits is the one that ends the run. */
  lemma DotAfterDigits(w: string, tail: string)
    requires AllDigits(w)
    ensures DotIndex(w + "." + tail) == |w|
  {
    if |w| > 0 {
      assert (w + "." + tail)[1..] == w[1..] + "." + tail;
      DotAfterDigits(w[1..], tail);
    }
  }

  /** A formatted hour value is never blank and is unchanged by trim. */
  lemma FormatTenthsIsTrimmed(t: int)
    ensures |FormatTenths(t)| > 0
    ensures !IsBlank(FormatTenths(t))
    ensures Trim(FormatTenths(t)) == FormatTenths(t)
  {
    var s := FormatTenths(t);
    var body := UnsignedTenths(if t < 0 then -t else t);
    assert s[|s| - 1] == body[|body| - 1];
    assert !IsWhitespace(s[0]);
  }
}
