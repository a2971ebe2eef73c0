/**
 * The answer validators of index.js for the logo text, the text size and the
 * file name. Each returns `true` (here `Accept`) or the message inquirer shows
 * before asking again. The regular expressions are written out as predicates
 * over characters.
 */
module Validators {
  import opened Wrappers
  import opened JsString

  /** What a validator returns: `true`, or the message to show. */
  datatype Verdict = Accept | Reject(message: string)

  // ---------------------------------------------------------------- logo text

  const TextLengthMessage := "Please enter a valid number of letters, between 0 and 3 inclusive."

  /** `logoTextValidator`: at most three UTF-16 code units. The source also
      tests `length >= 0`, which always holds. */
  function LogoTextValidator(value: string): (v: Verdict)
    ensures v == Accept <==> Utf16Length(value) <= 3
    ensures v != Accept ==> v == Reject(TextLengthMessage)
    ensures |value| > 3 ==> v != Accept
  {
    if Utf16Length(value) <= 3 then Accept else Reject(TextLengthMessage)
  }

  // ------------------------------------------------------------ text size

  predicate IsDigit(c: char)
  {
    '0' <= c <= '9'
  }

  predicate AllDigits(s: string)
  {
    forall i | 0 <= i < |s| :: IsDigit(s[i])
  }

  /** The language of `/^-?\d*\.?\d+$/`: an optional minus sign `s[..p]`,
      digits `s[p..q]`, an optional point `s[q..r]`, and at least one digit `s[r..]`. */
  ghost predicate NumberPattern(s: string)
  {
    exists p, q, r | 0 <= p <= q <= r < |s| ::
      && (p == 0 || (p == 1 && s[0] == '-'))
      && AllDigits(s[p..q])
      && (r == q || (r == q + 1 && s[q] == '.'))
      && AllDigits(s[r..])
  }

  /** A string of that language, taken apart: the sign, the digits before the
      point, whether there is a point, and the digits after it. */
  datatype Decimal = Decimal(negative: bool, whole: string, hasPoint: bool, fraction: string)

  predicate WellFormed(d: Decimal)
  {
    && AllDigits(d.whole) && AllDigits(d.fraction)
    && (if d.hasPoint then d.fraction != [] else d.whole != [] && d.fraction == [])
  }

  /** The text a decimal is written as. */
  function Text(d: Decimal): string
  {
    (if d.negative then "-" else "") + d.whole + (if d.hasPoint then "." + d.fraction else "")
  }

  /** The index of the first point in `u`, or `|u|` when there is none. */
  function FirstPoint(u: string): (k: nat)
    ensures k <= |u|
    ensures forall i | 0 <= i < k :: u[i] != '.'
    ensures k < |u| ==> u[k] == '.'
  {
    if u == [] || u[0] == '.' then 0 else 1 + FirstPoint(u[1..])
  }

  /** The regular-expression test of `logoTextSizeValidator`, returning the parts it matched. */
  function ParseNumber(s: string): (r: Option<Decimal>)
    ensures r.Some? ==> WellFormed(r.value) && Text(r.value) == s
  {
    var negative := |s| > 0 && s[0] == '-';
    var sign, u := if negative then "-" else "", if negative then s[1..] else s;
    var r := ParseUnsigned(negative, u);
    assert r.Some? ==> Text(r.value) == s by {
      if r.Some? {
        var d := r.value;
        var tail := if d.hasPoint then "." + d.fraction else "";
        assert Text(d) == sign + (d.whole + tail);
        assert s == sign + u;
      }
    }
    r
  }

  /** The part of that test after the optional minus sign. */
  function ParseUnsigned(negative: bool, u: string): (r: Option<Decimal>)
    ensures r.Some? ==> WellFormed(r.value) && r.value.negative == negative
    ensures r.Some? ==> r.value.whole + (if r.value.hasPoint then "." + r.value.fraction else "") == u
  {
    var k := FirstPoint(u);
    if k == |u| then
      if u != [] && AllDigits(u) then Some(Decimal(negative, u, false, [])) else None
    else if AllDigits(u[..k]) && k + 1 < |u| && AllDigits(u[k + 1..]) then
      assert u == u[..k] + "." + u[k + 1..];
      Some(Decimal(negative, u[..k], true, u[k + 1..]))
    else None
  }

  /** The unsigned part of a well-formed decimal parses back to it. */
  lemma ParseUnsignedText(d: Decimal)
    requires WellFormed(d)
    ensures ParseUnsigned(d.negative, d.whole + (if d.hasPoint then "." + d.fraction else "")) == Some(d)
  {
    var tail := if d.hasPoint then "." + d.fraction else "";
    var u := d.whole + tail;
    FirstPointOf(d.whole, tail);
    if d.hasPoint {
      assert u[..|d.whole|] == d.whole;
      assert u[|d.whole| + 1..] == d.fraction;
    } else {
      assert u == d.whole;
    }
  }

  /** Parsing the text of a well-formed decimal gives it back. */
  lemma ParseNumberText(d: Decimal)
    requires WellFormed(d)
    ensures ParseNumber(Text(d)) == Some(d)
  {
    var s := Text(d);
    var tail := if d.hasPoint then "." + d.fraction else "";
    var rest := d.whole + tail;
    assert s == (if d.negative then "-" else "") + rest;
    assert rest != [] && rest[0] != '-' by {
      if d.whole != [] {
        assert rest[0] == d.whole[0];
      } else {
        assert rest == tail && tail[0] == '.';
      }
    }
    assert (|s| > 0 && s[0] == '-') == d.negative;
    assert (if d.negative then s[1..] else s) == rest;
    ParseUnsignedText(d);
  }

  lemma {:induction false} FirstPointOf(whole: string, tail: string)
    requires AllDigits(whole)
    requires tail == [] || tail[0] == '.'
    ensures FirstPoint(whole + tail) == |whole|
  {
    if whole == [] {
      assert whole + tail == tail;
    } else {
      var u := whole + tail;
      assert u[0] == whole[0] && u[1..] == whole[1..] + tail;
      FirstPointOf(whole[1..], tail);
    }
  }

  /** Whatever the hand-written test accepts is in the language of the regular expression. */
  lemma ParsedIsNumberPattern(s: string)
    requires ParseNumber(s).Some?
    ensures NumberPattern(s)
  {
    var d := ParseNumber(s).value;
    var p := if d.negative then 1 else 0;
    var q := p + |d.whole|;
    assert s[..p] == (if d.negative then "-" else "");
    assert s[p..q] == d.whole;
    if d.hasPoint {
      assert s[q] == '.' && s[q + 1..] == d.fraction;
      assert AllDigits(s[p..q]) && AllDigits(s[q + 1..]);
    } else {
      assert s[p..p] == [] && s[p..] == d.whole;
      assert AllDigits(s[p..p]) && AllDigits(s[p..]);
    }
  }

  /** A sign and digits only, as the regular expression matches them with no point. */
  lemma IntegerFormParses(s: string, p: nat)
    requires p < |s| && (p == 0 || (p == 1 && s[0] == '-'))
    requires AllDigits(s[p..])
    ensures ParseNumber(s).Some?
  {
    var d := Decimal(p == 1, s[p..], false, []);
    assert s[..p] == (if p == 1 then "-" else "");
    assert s == s[..p] + s[p..];
    assert Text(d) == s;
    ParseNumberText(d);
  }

  /** A sign, digits, a point and digits, as the regular expression matches them with a point. */
  lemma PointFormParses(s: string, p: nat, q: nat)
    requires p <= q && q + 1 < |s| && (p == 0 || (p == 1 && s[0] == '-'))
    requires AllDigits(s[p..q]) && s[q] == '.' && AllDigits(s[q + 1..])
    ensures ParseNumber(s).Some?
  {
    var d := Decimal(p == 1, s[p..q], true, s[q + 1..]);
    assert s[..p] == (if p == 1 then "-" else "");
    assert s == s[..p] + s[p..q] + "." + s[q + 1..];
    assert Text(d) == s;
    ParseNumberText(d);
  }

  lemma AllDigitsJoin(s: string, p: nat, q: nat)
    requires p <= q <= |s|
    requires AllDigits(s[p..q]) && AllDigits(s[q..])
    ensures AllDigits(s[p..])
  {
    forall i | 0 <= i < |s| - p
      ensures IsDigit(s[p..][i])
    {
      if i < q - p {
        assert s[p..][i] == s[p..q][i];
      } else {
        assert s[p..][i] == s[q..][i - (q - p)];
      }
    }
  }

  /** Whatever is in the language of the regular expression, the hand-written test accepts. */
  lemma NumberPatternIsParsed(s: string)
    requires NumberPattern(s)
    ensures ParseNumber(s).Some?
  {
    var p, q, r :| 0 <= p <= q <= r < |s|
      && (p == 0 || (p == 1 && s[0] == '-'))
      && AllDigits(s[p..q])
      && (r == q || (r == q + 1 && s[q] == '.'))
      && AllDigits(s[r..]);
    if r == q {
      AllDigitsJoin(s, p, q);
      IntegerFormParses(s, p);
    } else {
      PointFormParses(s, p, q);
    }
  }

  /** The hand-written test accepts exactly the language of the regular expression. */
  lemma NumberPatternParses(s: string)
    ensures NumberPattern(s) <==> ParseNumber(s).Some?
  {
    if ParseNumber(s).Some? {
      ParsedIsNumberPattern(s);
    }
    if NumberPattern(s) {
      NumberPatternIsParsed(s);
    }
  }

  function Pow10(n: nat): (p: nat)
    ensures p >= 1
  {
    if n == 0 then 1 else 10 * Pow10(n - 1)
  }

  /** The number written by a string of decimal digits. */
  function DigitsValue(ds: string): nat
    requires AllDigits(ds)
  {
    if ds == [] then 0 else 10 * DigitsValue(ds[..|ds| - 1]) + (ds[|ds| - 1] as int - '0' as int)
  }

  lemma {:induction false} DigitsBelowPow10(ds: string)
    requires AllDigits(ds)
    ensures DigitsValue(ds) < Pow10(|ds|)
  {
    if ds != [] {
      DigitsBelowPow10(ds[..|ds| - 1]);
    }
  }

  predicate AllZeros(ds: string)
  {
    forall i | 0 <= i < |ds| :: ds[i] == '0'
  }

  lemma {:induction false} DigitsValueZero(ds: string)
    requires AllDigits(ds)
    ensures DigitsValue(ds) == 0 <==> AllZeros(ds)
  {
    if ds != [] {
      DigitsValueZero(ds[..|ds| - 1]);
      if AllZeros(ds) {
        assert AllZeros(ds[..|ds| - 1]);
      }
    }
  }

  /** The exact value `parseFloat` would read, before rounding to a double. */
  function Value(d: Decimal): real
    requires WellFormed(d)
  {
    var magnitude := DigitsValue(d.whole) as real + DigitsValue(d.fraction) as real / Pow10(|d.fraction|) as real;
    if d.negative then -magnitude else magnitude
  }

  lemma QuotientBelowOne(num: real, den: real)
    requires 0.0 <= num < den
    ensures 0.0 <= num / den < 1.0
    ensures num / den == 0.0 <==> num == 0.0
  {
    var f := num / den;
    var g := 1.0 - f;
    assert g * den == den - num;
    assert g * den > 0.0;
    assert f * den == num;
    assert f * den >= 0.0;
  }

  /** The digits after the point add less than one, and nothing only when they are all zeros. */
  lemma FractionBounds(fraction: string)
    requires AllDigits(fraction)
    ensures 0.0 <= DigitsValue(fraction) as real / Pow10(|fraction|) as real < 1.0
    ensures DigitsValue(fraction) as real / Pow10(|fraction|) as real == 0.0 <==> AllZeros(fraction)
  {
    DigitsBelowPow10(fraction);
    DigitsValueZero(fraction);
    QuotientBelowOne(DigitsValue(fraction) as real, Pow10(|fraction|) as real);
  }

  /** The value lies within one of the digits before the point. */
  lemma ValueBounds(d: Decimal)
    requires WellFormed(d)
    ensures !d.negative ==> DigitsValue(d.whole) as real <= Value(d) < DigitsValue(d.whole) as real + 1.0
    ensures d.negative ==> Value(d) <= 0.0
    ensures Value(d) == 0.0 <==> AllZeros(d.whole) && AllZeros(d.fraction)
  {
    FractionBounds(d.fraction);
    DigitsValueZero(d.whole);
  }

  const SizeSyntaxMessage := "Please enter a valid number of pixels."
  const SizeRangeMessage := "Please enter a valid number of pixels, between 0 and 200 inclusive."

  /** `logoTextSizeValidator`: the syntax test first, then the range [0, 200]. */
  function LogoTextSizeValidator(value: string): (v: Verdict)
    ensures v == Accept <==> ParseNumber(value).Some? && 0.0 <= Value(ParseNumber(value).value) <= 200.0
    ensures !NumberPattern(value) ==> v == Reject(SizeSyntaxMessage)
    ensures NumberPattern(value) && v != Accept ==> v == Reject(SizeRangeMessage)
  {
    NumberPatternParses(value);
    match ParseNumber(value)
    case None => Reject(SizeSyntaxMessage)
    case Some(d) => if 0.0 <= Value(d) <= 200.0 then Accept else Reject(SizeRangeMessage)
  }

  /** A size that parses is accepted when the digits before its point are below
      200 and refused with the range message when they are above. */
  lemma SizeByWholePart(value: string, d: Decimal)
    requires ParseNumber(value) == Some(d) && !d.negative
    ensures DigitsValue(d.whole) < 200 ==> LogoTextSizeValidator(value) == Accept
    ensures DigitsValue(d.whole) > 200 ==> LogoTextSizeValidator(value) == Reject(SizeRangeMessage)
  {
    ValueBounds(d);
  }

  /** A number with a minus sign is refused with the range message, unless all
      its digits are zero: `-0` reads as negative zero, which is `>= 0`. */
  lemma NegativeSize(value: string, d: Decimal)
    requires ParseNumber(value) == Some(d) && d.negative
    ensures LogoTextSizeValidator(value) == Accept <==> AllZeros(d.whole) && AllZeros(d.fraction)
    ensures LogoTextSizeValidator(value) != Accept ==> LogoTextSizeValidator(value) == Reject(SizeRangeMessage)
  {
    ValueBounds(d);
    NumberPatternParses(value);
  }

  /** A plain string of digits is accepted exactly when it writes a number up to 200. */
  lemma IntegerSize(value: string)
    requires value != [] && AllDigits(value)
    ensures LogoTextSizeValidator(value) == Accept <==> DigitsValue(value) <= 200
  {
    var d := Decimal(false, value, false, []);
    assert Text(d) == value;
    ParseNumberText(d);
    assert Value(d) == DigitsValue(value) as real;
  }

  // ------------------------------------------------------------ file name

  const FileNameMessage := "Please enter a valid filename."
  const SvgExtension := ".svg"

  predicate IsSeparator(c: char)
  {
    c == '/' || c == '\\'
  }

  /** The language of `/^[^\\/]+\.(svg)$/`: a non-empty base name without
      separators, then `.svg`. */
  ghost predicate FileNamePattern(t: string)
  {
    exists k | 0 < k <= |t| :: (forall i | 0 <= i < k :: !IsSeparator(t[i])) && t[k..] == SvgExtension
  }

  /** The regular-expression test of `logoFileNameValidator`. */
  predicate SvgFileName(t: string)
  {
    && |t| > |SvgExtension|
    && t[|t| - |SvgExtension|..] == SvgExtension
    && forall i | 0 <= i < |t| - |SvgExtension| :: !IsSeparator(t[i])
  }

  lemma SvgFileNamePattern(t: string)
    ensures SvgFileName(t) <==> FileNamePattern(t)
  {
    if FileNamePattern(t) {
      var k :| 0 < k <= |t| && (forall i | 0 <= i < k :: !IsSeparator(t[i])) && t[k..] == SvgExtension;
      assert |t[k..]| == 4;
    }
    if SvgFileName(t) {
      assert (forall i | 0 <= i < |t| - 4 :: !IsSeparator(t[i])) && t[|t| - 4..] == SvgExtension;
    }
  }

  /** `logoFileNameValidator`: a non-empty answer whose lower-cased, trimmed form is an SVG file name. */
  function LogoFileNameValidator(value: string): (v: Verdict)
    ensures v == Accept <==> value != [] && FileNamePattern(Trim(ToLower(value)))
    ensures v != Accept ==> v == Reject(FileNameMessage)
  {
    SvgFileNamePattern(Trim(ToLower(value)));
    if value == [] then Reject(FileNameMessage)
    else if SvgFileName(Trim(ToLower(value))) then Accept
    else Reject(FileNameMessage)
  }

  /** Upper and lower case are not told apart, so `LOGO.SVG` is as good as `logo.svg`. */
  lemma FileNameIgnoresCase(value: string)
    ensures LogoFileNameValidator(ToLower(value)) == LogoFileNameValidator(value)
  {
    ToLowerIdempotent(value);
  }

  lemma SvgFileNameHasNoSeparator(t: string)
    requires SvgFileName(t)
    ensures forall j | 0 <= j < |t| :: !IsSeparator(t[j])
  {
    forall j | |t| - 4 <= j < |t|
      ensures !IsSeparator(t[j])
    {
      assert t[j] == t[|t| - 4..][j - (|t| - 4)];
    }
  }

  lemma KeptCharacter(lower: string, t: string, i: nat)
    requires t == Trim(lower) && i < |lower|
    requires forall j | 0 <= j < |t| :: !IsSeparator(t[j])
    ensures !IsSeparator(lower[i])
  {
    TrimKeeps(lower, i);
    if lower[i] in t {
      var j :| 0 <= j < |t| && t[j] == lower[i];
    }
  }

  /** An accepted answer names a file, not a path: it holds no separator at all. */
  lemma AcceptedFileNameHasNoSeparator(value: string)
    requires LogoFileNameValidator(value) == Accept
    ensures forall i | 0 <= i < |value| :: !IsSeparator(value[i])
  {
    var lower := ToLower(value);
    var t := Trim(lower);
    assert SvgFileName(t);
    SvgFileNameHasNoSeparator(t);
    forall i | 0 <= i < |value|
      ensures !IsSeparator(value[i])
    {
      KeptCharacter(lower, t, i);
    }
  }

  // ------------------------------------------------------------ examples

  /** The default logo text passes. */
  lemma DefaultTextAccepted()
    ensures LogoTextValidator("LCM") == Accept
  {
  }

  /** The default size passes. */
  lemma DefaultSizeAccepted()
    ensures LogoTextSizeValidator("70") == Accept
  {
    assert DigitsValue("70"[..1]) == 7;
    IntegerSize("70");
  }

  /** A lower-case SVG file name without white space passes as it is. */
  lemma PlainFileNameAccepted(name: string)
    requires SvgFileName(name) && NoWhitespace(name)
    requires forall i | 0 <= i < |name| :: !('A' <= name[i] <= 'Z')
    ensures LogoFileNameValidator(name) == Accept
  {
    assert ToLower(name) == name;
  }

  /** The default file name passes. */
  lemma DefaultFileNameAccepted()
    ensures LogoFileNameValidator("logo.svg") == Accept
  {
    PlainFileNameAccepted("logo.svg");
  }

  /** An upper-case extension is accepted. */
  lemma UpperCaseFileNameAccepted()
    ensures LogoFileNameValidator("LOGO.SVG") == Accept
  {
    var name := "LOGO.SVG";
    assert ToLower(name) == "logo.svg";
    assert LogoFileNameValidator(name) == LogoFileNameValidator("logo.svg") by {
      FileNameIgnoresCase(name);
    }
    DefaultFileNameAccepted();
  }

  /** A path is refused. */
  lemma PathRefused()
    ensures LogoFileNameValidator("out/logo.svg") == Reject(FileNameMessage)
  {
    var path := "out/logo.svg";
    assert IsSeparator(path[3]);
    if LogoFileNameValidator(path) == Accept {
      AcceptedFileNameHasNoSeparator(path);
    }
  }

  /** Negative zero is accepted, and minus one is out of range. */
  lemma NegativeSizeExamples()
    ensures LogoTextSizeValidator("-0") == Accept
    ensures LogoTextSizeValidator("-1") == Reject(SizeRangeMessage)
  {
    var zero, one := Decimal(true, "0", false, []), Decimal(true, "1", false, []);
    assert Text(zero) == "-0" && Text(one) == "-1";
    ParseNumberText(zero);
    ParseNumberText(one);
    NegativeSize("-0", zero);
    NegativeSize("-1", one);
  }

  /** A trailing point is not a number. */
  lemma TrailingPointRefused()
    ensures LogoTextSizeValidator("5.") == Reject(SizeSyntaxMessage)
  {
    assert FirstPoint("5.") == 1;
  }
}
