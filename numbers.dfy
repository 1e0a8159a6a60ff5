/** `parseFloat` on the value column of a health file, over exact reals:
    leading whitespace is skipped, then the longest prefix of the form
    `[+-] digits [. digits]` with at least one digit is read; no such prefix
    is `NaN`, here `None`. */
module Numbers {
  import opened Options
  import opened Text

  /** The run of digits at the start of `s`. */
  function LeadingDigits(s: string): (r: string)
    ensures AllDigits(r)
    ensures |r| <= |s| && r == s[..|r|]
    ensures |r| == |s| || !IsDigit(s[|r|])
  {
    if s != [] && IsDigit(s[0]) then [s[0]] + LeadingDigits(s[1..]) else []
  }

  function Pow10(n: nat): (r: nat)
    ensures r >= 1
  {
    if n == 0 then 1 else 10 * Pow10(n - 1)
  }

  /** The value of `digits` read as the fraction `0.digits`. */
  function FractionValue(digits: string): (v: real)
    requires AllDigits(digits)
    ensures 0.0 <= v
  {
    DigitsValue(digits) as real / Pow10(|digits|) as real
  }

  /** The digits after the point that `rest` starts with, if it does. */
  function FracDigits(rest: string): (f: string)
    ensures AllDigits(f)
    ensures f != [] ==> |rest| > |f| && rest[0] == '.' && IsDigit(rest[1])
  {
    if rest != [] && rest[0] == '.' then LeadingDigits(rest[1..]) else []
  }

  /** The number with digits `whole` before the point and `frac` after it;
      none without a digit. */
  function Assemble(whole: string, frac: string): (r: Option<real>)
    requires AllDigits(whole) && AllDigits(frac)
    ensures r.Some? <==> whole != [] || frac != []
    ensures r.Some? ==> 0.0 <= r.value
  {
    if whole == [] && frac == [] then None
    else Some(DigitsValue(whole) as real + FractionValue(frac))
  }

  /** An unsigned decimal `int[.frac]`, read from the start of `u`. */
  function ParseUnsigned(u: string): (r: Option<real>)
    ensures r.Some? ==> 0.0 <= r.value
    ensures r.Some? ==> exists i :: 0 <= i < |u| && IsDigit(u[i])
  {
    var whole := LeadingDigits(u);
    var frac := FracDigits(u[|whole|..]);
    assert whole != [] ==> IsDigit(u[0]);
    assert whole == [] && frac != [] ==> IsDigit(u[|whole| + 1]);
    Assemble(whole, frac)
  }

  /** The number read after sign `c`: negated after a minus. */
  function ApplySign(c: char, r: Option<real>): (s: Option<real>)
    ensures s.Some? <==> r.Some?
  {
    match r
    case None => None
    case Some(v) => Some(if c == '-' then -v else v)
  }

  /** The number after the whitespace: an optional sign, then an unsigned
      decimal. */
  function ParseSigned(t: string): (r: Option<real>)
    ensures r.Some? ==> exists i :: 0 <= i < |t| && IsDigit(t[i])
  {
    if t != [] && (t[0] == '-' || t[0] == '+') then
      var r := ApplySign(t[0], ParseUnsigned(t[1..]));
      assert r.Some? ==> exists i :: 0 <= i < |t| && IsDigit(t[i]) by {
        if r.Some? {
          var i :| 0 <= i < |t[1..]| && IsDigit(t[1..][i]);
          assert IsDigit(t[i + 1]);
        }
      }
      r
    else
      ParseUnsigned(t)
  }

  /** `parseFloat(s)`, with `None` for `NaN`. */
  function ParseFloat(s: string): (r: Option<real>)
    ensures r.Some? ==> exists i :: 0 <= i < |s| && IsDigit(s[i])
  {
    var t := TrimStart(s);
    TrimStartSpec(s);
    assert forall i :: 0 <= i < |t| ==> t[i] == s[|s| - |t| + i];
    ParseSigned(t)
  }

  /** A string of digits is its own leading run. */
  lemma {:induction false} LeadingDigitsAll(s: string)
    requires AllDigits(s)
    ensures LeadingDigits(s) == s
  {
    if s != [] {
      LeadingDigitsAll(s[1..]);
      assert [s[0]] + s[1..] == s;
    }
  }

  /** A plain run of digits reads as the number it writes. */
  lemma ParseUnsignedDigits(s: string)
    requires s != [] && AllDigits(s)
    ensures ParseUnsigned(s) == Some(DigitsValue(s) as real)
  {
    LeadingDigitsAll(s);
    assert s[|s|..] == [];
    ParseUnsignedInteger(s, s);
  }

  lemma ParseFloatDigits(s: string)
    requires s != [] && AllDigits(s)
    ensures ParseFloat(s) == Some(DigitsValue(s) as real)
  {
    ParseUnsignedDigits(s);
    ParseFloatUnsigned(s);
  }

  /** The leading run stops where the digits stop. */
  lemma {:induction false} LeadingDigitsPrefix(w: string, t: string)
    requires AllDigits(w)
    requires t == [] || !IsDigit(t[0])
    ensures LeadingDigits(w + t) == w
  {
    if w == [] {
      assert w + t == t;
    } else {
      assert (w + t)[1..] == w[1..] + t;
      LeadingDigitsPrefix(w[1..], t);
      assert [w[0]] + w[1..] == w;
    }
  }

  /** A number read as the digits before the point and those after it. */
  lemma ParseUnsignedParts(u: string, w: string, f: string)
    requires AllDigits(w) && AllDigits(f) && (w != [] || f != [])
    requires LeadingDigits(u) == w
    requires FracDigits(u[|w|..]) == f
    ensures ParseUnsigned(u) == Some(DigitsValue(w) as real + FractionValue(f))
  {
  }

  /** A point, then digits, then anything but a digit: the digits are the
      fraction. */
  lemma FracAfterPoint(f: string, rest: string)
    requires AllDigits(f)
    requires rest == [] || !IsDigit(rest[0])
    ensures FracDigits(['.'] + f + rest) == f
  {
    var tail := ['.'] + f + rest;
    assert tail[0] == '.' && tail[1..] == f + rest;
    LeadingDigitsPrefix(f, rest);
  }

  lemma DecimalText(w: string, f: string, rest: string)
    ensures w + ['.'] + f + rest == w + (['.'] + f + rest)
    ensures (w + (['.'] + f + rest))[|w|..] == ['.'] + f + rest
  {
  }

  /** `int.frac` followed by anything that does not start with a digit
      reads as `int + 0.frac`. */
  lemma ParseUnsignedFraction(w: string, f: string, rest: string)
    requires AllDigits(w) && AllDigits(f) && (w != [] || f != [])
    requires rest == [] || !IsDigit(rest[0])
    ensures ParseUnsigned(w + ['.'] + f + rest) == Some(DigitsValue(w) as real + FractionValue(f))
  {
    var tail := ['.'] + f + rest;
    DecimalText(w, f, rest);
    FracAfterPoint(f, rest);
    LeadingDigitsPrefix(w, tail);
    ParseUnsignedParts(w + tail, w, f);
  }

  /** A number read as the digits before anything but a point. */
  lemma ParseUnsignedInteger(u: string, w: string)
    requires w != [] && AllDigits(w)
    requires LeadingDigits(u) == w
    requires u[|w|..] == [] || u[|w|..][0] != '.'
    ensures ParseUnsigned(u) == Some(DigitsValue(w) as real)
  {
    assert Pow10(0) == 1;
    assert FractionValue([]) == 0.0;
  }

  /** An integer followed by anything that starts with neither a digit nor
      a point reads as that integer. */
  lemma ParseUnsignedWhole(w: string, rest: string)
    requires w != [] && AllDigits(w)
    requires rest == [] || (!IsDigit(rest[0]) && rest[0] != '.')
    ensures ParseUnsigned(w + rest) == Some(DigitsValue(w) as real)
  {
    LeadingDigitsPrefix(w, rest);
    assert (w + rest)[|w|..] == rest;
    ParseUnsignedInteger(w + rest, w);
  }

  /** Skipping leading whitespace stops at the first other character. */
  lemma {:induction false} TrimStartPast(ws: string, s: string)
    requires AllWhitespace(ws)
    requires s == [] || !IsWhitespace(s[0])
    ensures TrimStart(ws + s) == s
  {
    if ws == [] {
      assert ws + s == s;
    } else {
      assert (ws + s)[0] == ws[0];
      assert (ws + s)[1..] == ws[1..] + s;
      TrimStartPast(ws[1..], s);
    }
  }

  /** Leading whitespace is skipped. */
  lemma ParseFloatSkipsWhitespace(ws: string, s: string)
    requires AllWhitespace(ws)
    requires s == [] || !IsWhitespace(s[0])
    ensures ParseFloat(ws + s) == ParseFloat(s)
  {
    TrimStartPast(ws, s);
    ParseFloatUnspaced(s);
  }

  /** Without a sign in front, the number is read unsigned. */
  lemma ParseFloatUnsigned(u: string)
    requires u != [] && !IsWhitespace(u[0]) && u[0] != '-' && u[0] != '+'
    ensures ParseFloat(u) == ParseUnsigned(u)
  {
    ParseFloatUnspaced(u);
  }

  /** Nothing to skip: the number is read from the first character. */
  lemma ParseFloatUnspaced(s: string)
    requires s == [] || !IsWhitespace(s[0])
    ensures ParseFloat(s) == ParseSigned(s)
  {
  }

  /** A sign in front applies to the number read after it. */
  lemma ParseSignedSign(t: string)
    requires t != [] && (t[0] == '-' || t[0] == '+')
    ensures ParseSigned(t) == ApplySign(t[0], ParseUnsigned(t[1..]))
  {
  }

  /** A minus in front negates the number read after it. */
  lemma ParseFloatNegative(u: string, v: real)
    requires ParseUnsigned(u) == Some(v)
    ensures ParseFloat(['-'] + u) == Some(-v)
  {
    var t := ['-'] + u;
    assert t[0] == '-' && t[1..] == u;
    ParseSignedSign(t);
    ParseFloatUnspaced(t);
  }

  /** `int.frac` followed by anything that does not start with a digit
      reads as the decimal it writes. */
  lemma ParseFloatDecimal(w: string, f: string, rest: string)
    requires AllDigits(w) && AllDigits(f) && (w != [] || f != [])
    requires rest == [] || !IsDigit(rest[0])
    ensures ParseFloat(w + ['.'] + f + rest) == Some(DigitsValue(w) as real + FractionValue(f))
  {
    var u := w + ['.'] + f + rest;
    ParseUnsignedFraction(w, f, rest);
    assert u[0] == if w != [] then w[0] else '.';
    ParseFloatUnsigned(u);
  }

  /** A value column as the health files write it. */
  lemma ParseFloatExample()
    ensures ParseFloat("72.5") == Some(72.5)
  {
    ExampleDigits();
    ParseFloatDecimal("72", "5", []);
    ExampleText();
  }

  lemma ExampleDigits()
    ensures DigitsValue("72") == 72 && FractionValue("5") == 0.5
    ensures DigitsValue("0") == 0 && FractionValue("25") == 0.25
  {
    assert "72"[..1] == "7" && "7"[..0] == [];
    assert "5"[..0] == [] && Pow10(1) == 10;
    assert "0"[..0] == [];
    assert "25"[..1] == "2" && "2"[..0] == [] && Pow10(2) == 100;
  }

  lemma ExampleText()
    ensures "72" + ['.'] + "5" + [] == "72.5"
    ensures "0" + ['.'] + "25" + " kg" == "0.25 kg"
    ensures ['-'] + "0.25 kg" == "-0.25 kg"
  {
  }

  /** A value with a unit after it: the unit is ignored. */
  lemma ParseUnsignedExample()
    ensures ParseUnsigned("0.25 kg") == Some(0.25)
  {
    ExampleDigits();
    ParseUnsignedFraction("0", "25", " kg");
    ExampleText();
  }

  /** A negative value with a unit after it. */
  lemma ParseFloatNegativeExample()
    ensures ParseFloat("-0.25 kg") == Some(-0.25)
  {
    ParseUnsignedExample();
    ParseFloatNegative("0.25 kg", 0.25);
    ExampleText();
  }
}
