/** The value parser `parseUSD`: delete the decoration characters `$ , % x X`,
    then read the longest decimal-literal prefix the way `parseFloat` does
    (leading white space, an optional sign, digits with an optional
    fraction, an optional exponent), and fall back to 0 when there is none. */
module Values {
  import opened Text

  /** The characters of the class `/[$,%x]/i`. */
  predicate IsDecoration(c: char) {
    c == '$' || c == ',' || c == '%' || c == 'x' || c == 'X'
  }

  predicate NoDecoration(s: string) {
    forall i :: 0 <= i < |s| ==> !IsDecoration(s[i])
  }

  predicate OnlyDecoration(s: string) {
    forall i :: 0 <= i < |s| ==> IsDecoration(s[i])
  }

  /** `str.replace(/[$,%x]/gi, '')`. */
  function StripDecoration(s: string): (r: string)
    ensures NoDecoration(r)
    ensures |r| <= |s|
  {
    if s == [] then [] else (if IsDecoration(s[0]) then [] else [s[0]]) + StripDecoration(s[1..])
  }

  /** Stripping is a homomorphism of concatenation. */
  lemma {:induction false} StripAppend(a: string, b: string)
    ensures StripDecoration(a + b) == StripDecoration(a) + StripDecoration(b)
  {
    if a == [] {
      assert a + b == b;
    } else {
      assert (a + b)[1..] == a[1..] + b;
      StripAppend(a[1..], b);
    }
  }

  /** Stripping deletes the decoration characters and nothing else: every
      other character of `s` survives, and nothing new appears. */
  lemma {:induction false} StripKeepsOthers(s: string)
    ensures forall c :: c in s && !IsDecoration(c) ==> c in StripDecoration(s)
    ensures forall c :: c in StripDecoration(s) ==> c in s
  {
    if s != [] {
      StripKeepsOthers(s[1..]);
      assert s == [s[0]] + s[1..];
    }
  }

  /** A string without decoration characters is left as it is. */
  lemma {:induction false} StripKeeps(s: string)
    requires NoDecoration(s)
    ensures StripDecoration(s) == s
  {
    if s != [] {
      StripKeeps(s[1..]);
    }
  }

  /** A string made of decoration characters only disappears. */
  lemma {:induction false} StripErases(s: string)
    requires OnlyDecoration(s)
    ensures StripDecoration(s) == []
  {
    if s != [] {
      StripErases(s[1..]);
    }
  }

  /** Length of the run of ASCII digits at the start of `s`. */
  function DigitRun(s: string): (k: nat)
    ensures k <= |s|
    ensures AllDigits(s[..k])
    ensures k < |s| ==> !IsDigit(s[k])
  {
    if s != [] && IsDigit(s[0]) then 1 + DigitRun(s[1..]) else 0
  }

  function Pow10(n: nat): (p: nat)
    ensures p >= 1
  {
    if n == 0 then 1 else 10 * Pow10(n - 1)
  }

  /** `m` moved `n` decimal places: to the right (divided by ten `n` times)
      when `down`, else to the left. */
  function Shift(m: real, n: nat, down: bool): (r: real)
    ensures m >= 0.0 ==> r >= 0.0
  {
    if n == 0 then m
    else if down then Shift(m, n - 1, down) / 10.0
    else Shift(m, n - 1, down) * 10.0
  }

  /** Shifting right by `n` places divides by the `n`-th power of ten. */
  lemma {:induction false} ShiftDown(m: real, n: nat)
    ensures Shift(m, n, true) == m / Pow10(n) as real
  {
    if n > 0 {
      ShiftDown(m, n - 1);
      var p := Pow10(n - 1) as real;
      assert Pow10(n) as real == 10.0 * p;
      assert m / p / 10.0 == m / (10.0 * p);
    }
  }

  /** The natural number a string of decimal digits denotes. */
  function DigitsValue(ds: string): nat
    requires AllDigits(ds)
  {
    if ds == [] then 0 else DigitsValue(ds[..|ds| - 1]) * 10 + (ds[|ds| - 1] as int - '0' as int)
  }

  /** The pieces of a decimal literal as `parseFloat` recognises it:
      `[+-] digits [. digits] [(e|E) [+-] digits]`, with at least one digit
      before or after the point. */
  datatype Literal = Literal(negative: bool, whole: string, fraction: string,
                             expNegative: bool, exponent: string)
  {
    predicate Valid() {
      AllDigits(whole) && AllDigits(fraction) && AllDigits(exponent)
      && (whole != [] || fraction != [])
    }

    /** The digits after the point are the fraction shifted right by its
        length; the exponent shifts the mantissa left or right. */
    function Magnitude(): (m: real)
      requires Valid()
      ensures m >= 0.0
    {
      var mantissa := DigitsValue(whole) as real + Shift(DigitsValue(fraction) as real, |fraction|, true);
      Shift(mantissa, DigitsValue(exponent), expNegative)
    }

    function Value(): real
      requires Valid()
    {
      if negative then -Magnitude() else Magnitude()
    }
  }

  /** The exponent part at the start of `t`, when there is a complete one:
      `e` or `E`, an optional sign, at least one digit. */
  function ReadExponent(t: string): (r: (bool, string))
    ensures AllDigits(r.1)
  {
    if |t| > 0 && (t[0] == 'e' || t[0] == 'E') then
      var signLen := if |t| > 1 && (t[1] == '+' || t[1] == '-') then 1 else 0;
      var rest := t[1 + signLen..];
      var n := DigitRun(rest);
      if n > 0 then (signLen == 1 && t[1] == '-', rest[..n]) else (false, "")
    else (false, "")
  }

  /** The digits after a decimal point at the start of `t`, and how many
      characters the point and those digits take. */
  function ReadFraction(t: string): (r: (string, nat))
    ensures AllDigits(r.0) && r.1 <= |t|
    ensures r.1 == (if |t| > 0 && t[0] == '.' then 1 + |r.0| else 0)
    ensures |t| > 1 && t[0] == '.' && IsDigit(t[1]) ==> r.0 != []
    ensures r.0 != [] ==> |t| > 1 && t[0] == '.' && IsDigit(t[1])
  {
    if |t| > 0 && t[0] == '.' then
      var m := DigitRun(t[1..]);
      assert t[1..1 + m] == t[1..][..m];
      (t[1..1 + m], 1 + m)
    else ("", 0)
  }

  /** The longest unsigned decimal-literal prefix of `b`. */
  function ReadUnsigned(b: string): (r: Option<Literal>)
    ensures r.Some? <==> (|b| > 0 && IsDigit(b[0])) || (|b| > 1 && b[0] == '.' && IsDigit(b[1]))
    ensures r.Some? ==> r.value.Valid() && !r.value.negative
  {
    var k := DigitRun(b);
    var frac := ReadFraction(b[k..]);
    if k == 0 && frac.0 == [] then None
    else
      var exp := ReadExponent(b[k + frac.1..]);
      Some(Literal(false, b[..k], frac.0, exp.0, exp.1))
  }

  function SignLength(t: string): (n: nat)
    ensures n <= |t|
  {
    if |t| > 0 && (t[0] == '+' || t[0] == '-') then 1 else 0
  }

  /** `t` starts like a decimal literal: an optional sign, then a digit or
      a point followed by a digit. */
  predicate StartsNumber(t: string) {
    var b := t[SignLength(t)..];
    (|b| > 0 && IsDigit(b[0])) || (|b| > 1 && b[0] == '.' && IsDigit(b[1]))
  }

  /** The longest decimal-literal prefix of `t` (no leading white space
      skipped here), or None when `t` does not start with one. */
  function ReadLiteral(t: string): (r: Option<Literal>)
    ensures r.Some? <==> StartsNumber(t)
    ensures r.Some? ==> r.value.Valid()
    ensures r.Some? ==> (r.value.negative <==> t[0] == '-')
  {
    var n := SignLength(t);
    match ReadUnsigned(t[n..])
    case None => None
    case Some(lit) => Some(lit.(negative := n == 1 && t[0] == '-'))
  }

  /** `parseFloat(s) || 0`: NaN (no literal prefix) and zero both give 0. */
  function ParseFloatOrZero(s: string): real {
    match ReadLiteral(TrimStart(s))
    case None => 0.0
    case Some(lit) => lit.Value()
  }

  /** `parseUSD(str)` of both script versions. */
  function ParseUSD(s: string): (r: real)
    ensures !StartsNumber(TrimStart(StripDecoration(s))) ==> r == 0.0
    ensures var t := TrimStart(StripDecoration(s));
            StartsNumber(t) && t[0] != '-' ==> r >= 0.0
    ensures var t := TrimStart(StripDecoration(s));
            StartsNumber(t) && t[0] == '-' ==> r <= 0.0
  {
    ParseFloatOrZero(StripDecoration(s))
  }

  // ---------------------------------------------------------------------
  // Reference: decimal numbers written in the plain form used on the page

  type Digit = d: int | 0 <= d < 10

  /** A decimal number as a sign, the digits before the point and the
      digits after it. */
  datatype Decimal = Decimal(negative: bool, whole: seq<Digit>, fraction: seq<Digit>)

  function DigitsNat(ds: seq<Digit>): nat {
    if ds == [] then 0 else DigitsNat(ds[..|ds| - 1]) * 10 + ds[|ds| - 1]
  }

  /** What the decimal means. */
  function DecimalValue(d: Decimal): real {
    var m := DigitsNat(d.whole) as real + DigitsNat(d.fraction) as real / Pow10(|d.fraction|) as real;
    if d.negative then -m else m
  }

  function DigitChars(ds: seq<Digit>): (s: string)
    ensures |s| == |ds| && AllDigits(s)
  {
    seq(|ds|, i requires 0 <= i < |ds| => ('0' as int + ds[i]) as char)
  }

  /** The decimal written out: `-` when negative, the whole digits, and a
      point with the fraction digits when there are any. */
  function Render(d: Decimal): string {
    (if d.negative then "-" else "")
    + DigitChars(d.whole)
    + (if d.fraction == [] then "" else "." + DigitChars(d.fraction))
  }

  lemma {:induction false} DigitCharsValue(ds: seq<Digit>)
    ensures DigitsValue(DigitChars(ds)) == DigitsNat(ds)
  {
    if ds != [] {
      var s := DigitChars(ds);
      assert s[..|s| - 1] == DigitChars(ds[..|ds| - 1]);
      DigitCharsValue(ds[..|ds| - 1]);
    }
  }

  lemma {:induction false} DigitRunStops(w: string, rest: string)
    requires AllDigits(w)
    requires rest == [] || !IsDigit(rest[0])
    ensures DigitRun(w + rest) == |w|
  {
    if w == [] {
      assert w + rest == rest;
    } else {
      assert (w + rest)[1..] == w[1..] + rest;
      DigitRunStops(w[1..], rest);
    }
  }

  /** Nothing at the start of `rest` can extend a literal before it: no
      digit, no point and no exponent mark. */
  predicate StopsLiteral(rest: string) {
    rest == [] || !(IsDigit(rest[0]) || rest[0] == '.' || rest[0] == 'e' || rest[0] == 'E')
  }

  /** Plain digits with an optional fraction, followed by text that cannot
      extend them, read back as themselves: the reading stops there. */
  lemma ReadUnsignedStops(w: string, f: string, rest: string)
    requires AllDigits(w) && AllDigits(f) && w != [] && StopsLiteral(rest)
    ensures ReadUnsigned(w + (if f == [] then "" else "." + f) + rest)
            == Some(Literal(false, w, f, false, ""))
  {
    var tail := if f == [] then "" else "." + f;
    var b := w + tail + rest;
    assert b == w + (tail + rest);
    FractionStops(f, rest);
    DigitRunStops(w, tail + rest);
    assert b[..|w|] == w;
    assert b[|w|..] == tail + rest;
    assert b[|w| + |tail|..] == rest;
    assert ReadExponent(rest) == (false, "");
  }

  /** The fraction part of a plain literal, followed by text that cannot
      extend it, is read to its end. */
  lemma FractionStops(f: string, rest: string)
    requires AllDigits(f) && (rest == [] || !(IsDigit(rest[0]) || rest[0] == '.'))
    ensures var tail := if f == [] then "" else "." + f;
            ReadFraction(tail + rest) == (f, |tail|)
            && (tail + rest == [] || !IsDigit((tail + rest)[0]))
  {
    if f == [] {
      assert "" + rest == rest;
    } else {
      var u := "." + f + rest;
      assert u[1..] == f + rest;
      DigitRunStops(f, rest);
      assert u[1..1 + |f|] == f;
    }
  }

  /** Plain digits with an optional fraction read back as themselves. */
  lemma ReadUnsignedPlain(w: string, f: string)
    requires AllDigits(w) && AllDigits(f) && w != []
    ensures ReadUnsigned(w + (if f == [] then "" else "." + f)) == Some(Literal(false, w, f, false, ""))
  {
    var tail := if f == [] then "" else "." + f;
    ReadUnsignedStops(w, f, []);
    assert w + tail + [] == w + tail;
  }

  /** A signed plain literal followed by text that cannot extend it. */
  lemma ReadLiteralStops(negative: bool, w: string, f: string, rest: string)
    requires AllDigits(w) && AllDigits(f) && w != [] && StopsLiteral(rest)
    ensures ReadLiteral((if negative then "-" else "") + w + (if f == [] then "" else "." + f) + rest)
            == Some(Literal(negative, w, f, false, ""))
  {
    var sign := if negative then "-" else "";
    var u := w + (if f == [] then "" else "." + f) + rest;
    var t := sign + w + (if f == [] then "" else "." + f) + rest;
    assert t == sign + u;
    ReadUnsignedStops(w, f, rest);
    assert SignLength(t) == |sign|;
    assert t[|sign|..] == u;
  }

  /** Reading a rendered decimal followed by text that cannot extend it
      gives the decimal's value. */
  lemma ReadRenderedStops(d: Decimal, rest: string)
    requires d.whole != [] && StopsLiteral(rest)
    ensures var r := ReadLiteral(Render(d) + rest);
            r.Some? && r.value.Valid() && r.value.Value() == DecimalValue(d)
  {
    var w := DigitChars(d.whole);
    var f := DigitChars(d.fraction);
    var lit := Literal(d.negative, w, f, false, "");
    assert Render(d) + rest == (if d.negative then "-" else "") + w + (if f == [] then "" else "." + f) + rest;
    ReadLiteralStops(d.negative, w, f, rest);
    DigitCharsValue(d.whole);
    DigitCharsValue(d.fraction);
    PlainMagnitude(lit);
  }

  /** Reading a rendered decimal gives its value back. */
  lemma ReadRendered(d: Decimal)
    requires d.whole != []
    ensures var r := ReadLiteral(Render(d));
            r.Some? && r.value.Valid() && r.value.Value() == DecimalValue(d)
  {
    ReadRenderedStops(d, []);
    assert Render(d) + [] == Render(d);
  }

  /** Without an exponent the magnitude is the whole part plus the fraction. */
  lemma PlainMagnitude(lit: Literal)
    requires lit.Valid() && lit.exponent == ""
    ensures lit.Magnitude() == DigitsValue(lit.whole) as real
                               + DigitsValue(lit.fraction) as real / Pow10(|lit.fraction|) as real
  {
    assert DigitsValue(lit.exponent) == 0;
    ShiftDown(DigitsValue(lit.fraction) as real, |lit.fraction|);
  }

  /** Decoration around an undecorated string is all that stripping removes. */
  lemma StripAround(before: string, t: string, after: string)
    requires OnlyDecoration(before) && NoDecoration(t) && OnlyDecoration(after)
    ensures StripDecoration(before + t + after) == t
  {
    StripAppend(before + t, after);
    StripAppend(before, t);
    StripErases(before);
    StripErases(after);
    StripKeeps(t);
    assert [] + t + [] == t;
  }

  lemma RenderShape(d: Decimal)
    requires d.whole != []
    ensures NoDecoration(Render(d))
    ensures Render(d) != [] && (Render(d)[0] == '-' || IsDigit(Render(d)[0]))
  {
    var w := DigitChars(d.whole);
    var f := DigitChars(d.fraction);
    var t := Render(d);
    assert forall i :: 0 <= i < |t| ==> t[i] == '-' || t[i] == '.' || IsDigit(t[i]) by {
      var sign := if d.negative then "-" else "";
      var tail := if d.fraction == [] then "" else "." + f;
      assert t == sign + w + tail;
      forall i | 0 <= i < |t|
        ensures t[i] == '-' || t[i] == '.' || IsDigit(t[i])
      {
        if i < |sign| {
        } else if i < |sign| + |w| {
          assert t[i] == w[i - |sign|];
        } else {
          assert t[i] == tail[i - |sign| - |w|];
        }
      }
    }
  }

  /** `parseUSD` inverts the way amounts are displayed: any text whose
      decoration-free form is a rendered decimal reads back as its value,
      whatever `$`, `,`, `%`, `x` or `X` were mixed into it. */
  lemma ParseUSDDecorated(shown: string, d: Decimal)
    requires d.whole != []
    requires StripDecoration(shown) == Render(d)
    ensures ParseUSD(shown) == DecimalValue(d)
  {
    var t := Render(d);
    RenderShape(d);
    assert !IsSpace(t[0]);
    assert TrimStart(t) == t;
    ReadRendered(d);
  }

  /** A rendered decimal with a currency sign before it and a percent or
      leverage suffix after it reads back as its value. */
  lemma ParseUSDRendered(d: Decimal, before: string, after: string)
    requires d.whole != []
    requires OnlyDecoration(before) && OnlyDecoration(after)
    ensures ParseUSD(before + Render(d) + after) == DecimalValue(d)
  {
    RenderShape(d);
    StripAround(before, Render(d), after);
    ParseUSDDecorated(before + Render(d) + after, d);
  }

  // ---------------------------------------------------------------------
  // Reference: the same decimals written with an exponent

  /** Shifting left by `n` places multiplies by the `n`-th power of ten. */
  lemma {:induction false} ShiftUp(m: real, n: nat)
    ensures Shift(m, n, false) == m * Pow10(n) as real
  {
    if n > 0 {
      ShiftUp(m, n - 1);
      assert Pow10(n) as real == 10.0 * Pow10(n - 1) as real;
    }
  }

  /** An exponent part: `e` or `E`, an optional sign and the digits. */
  predicate IsExponentSign(expSign: string) {
    expSign == "" || expSign == "+" || expSign == "-"
  }

  /** `v` times ten to the `n`, or divided by it when `down`. */
  function Scale(v: real, n: nat, down: bool): real {
    if down then v / Pow10(n) as real else v * Pow10(n) as real
  }

  /** What `d` written with the exponent `e` (negative when `down`) means. */
  function ScaledValue(d: Decimal, down: bool, e: seq<Digit>): real {
    Scale(DecimalValue(d), DigitsNat(e), down)
  }

  /** A complete exponent part is read to its end. */
  lemma ReadExponentWhole(mark: char, expSign: string, es: string)
    requires mark == 'e' || mark == 'E'
    requires IsExponentSign(expSign) && AllDigits(es) && es != []
    ensures ReadExponent([mark] + expSign + es) == (expSign == "-", es)
  {
    var t := [mark] + expSign + es;
    assert t[1 + |expSign|..] == es;
    DigitRunStops(es, []);
    assert es + [] == es;
    assert es[..|es|] == es;
  }

  /** Digits with an optional fraction and an exponent part `rest` are
      one literal. */
  lemma ReadUnsignedExponent(w: string, f: string, rest: string, mark: char, expSign: string, es: string)
    requires AllDigits(w) && AllDigits(f) && w != []
    requires mark == 'e' || mark == 'E'
    requires IsExponentSign(expSign) && AllDigits(es) && es != []
    requires rest == [mark] + expSign + es
    ensures ReadUnsigned(w + (if f == [] then "" else "." + f) + rest)
            == Some(Literal(false, w, f, expSign == "-", es))
  {
    var tail := if f == [] then "" else "." + f;
    var b := w + tail + rest;
    assert b == w + (tail + rest);
    FractionStops(f, rest);
    DigitRunStops(w, tail + rest);
    assert b[..|w|] == w;
    assert b[|w|..] == tail + rest;
    assert b[|w| + |tail|..] == rest;
    ReadExponentWhole(mark, expSign, es);
  }

  /** A minus sign before an unsigned literal makes it negative. */
  lemma SignedLiteral(negative: bool, u: string)
    requires ReadUnsigned(u).Some?
    ensures ReadLiteral((if negative then "-" else "") + u) == Some(ReadUnsigned(u).value.(negative := negative))
  {
    var sign := if negative then "-" else "";
    var t := sign + u;
    assert SignLength(t) == |sign|;
    assert t[|sign|..] == u;
  }

  /** Shifting commutes with negation. */
  lemma {:induction false} ShiftNegate(m: real, n: nat, down: bool)
    ensures Shift(-m, n, down) == -Shift(m, n, down)
  {
    if n > 0 {
      ShiftNegate(m, n - 1, down);
    }
  }

  /** The literal made of a decimal's digits, without an exponent, means
      the decimal. */
  lemma PlainLiteralValue(d: Decimal)
    requires d.whole != []
    ensures Literal(d.negative, DigitChars(d.whole), DigitChars(d.fraction), false, "").Value() == DecimalValue(d)
  {
    PlainMagnitude(Literal(d.negative, DigitChars(d.whole), DigitChars(d.fraction), false, ""));
    DigitCharsValue(d.whole);
    DigitCharsValue(d.fraction);
  }

  /** The literal made of a decimal's digits and an exponent means the
      decimal moved by the exponent's number of places. */
  lemma ScientificValue(d: Decimal, down: bool, e: seq<Digit>)
    requires d.whole != []
    ensures Literal(d.negative, DigitChars(d.whole), DigitChars(d.fraction), down, DigitChars(e)).Value()
            == Shift(DecimalValue(d), DigitsNat(e), down)
  {
    var w, f := DigitChars(d.whole), DigitChars(d.fraction);
    var plain := Literal(d.negative, w, f, false, "");
    var lit := Literal(d.negative, w, f, down, DigitChars(e));
    var mant := DigitsValue(w) as real + Shift(DigitsValue(f) as real, |f|, true);
    assert DigitsValue("") == 0;
    assert plain.Magnitude() == mant;
    DigitCharsValue(e);
    assert lit.Magnitude() == Shift(mant, DigitsNat(e), down);
    PlainLiteralValue(d);
    ShiftNegate(mant, DigitsNat(e), down);
  }

  /** The literal a rendered decimal with an exponent part reads as. */
  lemma ReadScientific(d: Decimal, mark: char, expSign: string, e: seq<Digit>)
    requires d.whole != [] && e != []
    requires mark == 'e' || mark == 'E'
    requires IsExponentSign(expSign)
    ensures var r := ReadLiteral(Render(d) + ([mark] + expSign + DigitChars(e)));
            r.Some? && r.value.Valid() && r.value.Value() == ScaledValue(d, expSign == "-", e)
  {
    var w := DigitChars(d.whole);
    var f := DigitChars(d.fraction);
    var es := DigitChars(e);
    var rest := [mark] + expSign + es;
    var u := w + (if f == [] then "" else "." + f) + rest;
    assert Render(d) + rest == (if d.negative then "-" else "") + u;
    ReadUnsignedExponent(w, f, rest, mark, expSign, es);
    SignedLiteral(d.negative, u);
    ScientificValue(d, expSign == "-", e);
    ShiftIsScale(DecimalValue(d), DigitsNat(e), expSign == "-");
  }

  /** Moving the point `n` places scales by ten to the `n`. */
  lemma ShiftIsScale(v: real, n: nat, down: bool)
    ensures Shift(v, n, down) == Scale(v, n, down)
  {
    if down {
      ShiftDown(v, n);
    } else {
      ShiftUp(v, n);
    }
  }

  /** The exponent form carries no decoration character. */
  lemma ScientificShape(d: Decimal, mark: char, expSign: string, e: seq<Digit>)
    requires d.whole != []
    requires mark == 'e' || mark == 'E'
    requires IsExponentSign(expSign)
    ensures NoDecoration(Render(d) + ([mark] + expSign + DigitChars(e)))
  {
    RenderShape(d);
    var r := Render(d);
    var x := [mark] + expSign + DigitChars(e);
    var t := r + x;
    forall i | 0 <= i < |t|
      ensures !IsDecoration(t[i])
    {
      if i < |r| {
        assert t[i] == r[i];
      } else {
        assert t[i] == x[i - |r|];
      }
    }
  }

  /** `parseUSD` also reads an amount written with an exponent part, as
      `parseFloat` does: a rendered decimal, then `e` or `E`, an optional
      sign and digits, with decoration around it, reads as the decimal
      scaled by that power of ten (`"1e3"` → 1000, `"2.5E-1%"` → 0.25). */
  lemma ParseUSDScientific(d: Decimal, mark: char, expSign: string, e: seq<Digit>,
                           before: string, after: string)
    requires d.whole != [] && e != []
    requires mark == 'e' || mark == 'E'
    requires IsExponentSign(expSign)
    requires OnlyDecoration(before) && OnlyDecoration(after)
    ensures ParseUSD(before + (Render(d) + ([mark] + expSign + DigitChars(e))) + after)
            == ScaledValue(d, expSign == "-", e)
  {
    var t := Render(d) + ([mark] + expSign + DigitChars(e));
    ScientificShape(d, mark, expSign, e);
    StripAround(before, t, after);
    RenderShape(d);
    assert t[0] == Render(d)[0];
    assert TrimStart(t) == t;
    ReadScientific(d, mark, expSign, e);
  }

  /** An amount with an exponent: `"1e3"` reads as 1000. */
  lemma ParseUSDExponentThousand()
    ensures ParseUSD("1e3") == 1000.0
  {
    var one := Decimal(false, [1], []);
    ParseUSDScientific(one, 'e', "", [3], "", "");
    ThousandValue();
    ThousandText();
  }

  lemma ThousandValue()
    ensures ScaledValue(Decimal(false, [1], []), false, [3]) == 1000.0
  {
    assert DigitsNat([1]) == 1 && DigitsNat([3]) == 3;
    assert Pow10(3) == 1000;
  }

  lemma ThousandText()
    ensures "" + (Render(Decimal(false, [1], [])) + (['e'] + "" + DigitChars([3]))) + "" == "1e3"
  {
    assert DigitChars([1]) == "1";
    assert DigitChars([3]) == "3";
  }

  /** A negative exponent before a decoration: `"2.5E-1%"` reads as 0.25. */
  lemma ParseUSDExponentFraction()
    ensures ParseUSD("2.5E-1%") == 0.25
  {
    var d := Decimal(false, [2], [5]);
    ParseUSDScientific(d, 'E', "-", [1], "", "%");
    QuarterValue();
    QuarterText();
  }

  lemma QuarterValue()
    ensures ScaledValue(Decimal(false, [2], [5]), true, [1]) == 0.25
  {
    assert DigitsNat([2]) == 2 && DigitsNat([5]) == 5 && DigitsNat([1]) == 1;
    assert Pow10(1) == 10;
  }

  lemma QuarterText()
    ensures "" + (Render(Decimal(false, [2], [5])) + (['E'] + "-" + DigitChars([1]))) + "%" == "2.5E-1%"
  {
    var text := "2.5E-1%";
    assert DigitChars([2]) == [text[0]];
    assert DigitChars([5]) == [text[2]];
    assert DigitChars([1]) == [text[5]];
    assert Render(Decimal(false, [2], [5])) == text[..3];
    assert text == "" + (text[..3] + (['E'] + "-" + [text[5]])) + "%";
  }

  /** Digits grouped in threes with `,` from the right, as `toLocaleString`
      shows the whole part of an amount. */
  function GroupThousands(w: string): string {
    if |w| <= 3 then w else GroupThousands(w[..|w| - 3]) + "," + w[|w| - 3..]
  }

  lemma {:induction false} StripGrouped(w: string)
    requires NoDecoration(w)
    ensures StripDecoration(GroupThousands(w)) == w
  {
    if |w| <= 3 {
      StripKeeps(w);
    } else {
      var head := w[..|w| - 3];
      var tail := w[|w| - 3..];
      var g := GroupThousands(head);
      assert head + tail == w;
      NoDecorationSplit(w, |w| - 3);
      calc {
        StripDecoration(GroupThousands(w));
        StripDecoration(g + "," + tail);
        { StripAppend(g + ",", tail); }
        StripDecoration(g + ",") + StripDecoration(tail);
        { StripAppend(g, ","); StripErases(","); }
        StripDecoration(g) + StripDecoration(tail);
        { StripGrouped(head); StripKeeps(tail); }
        head + tail;
        w;
      }
    }
  }

  lemma NoDecorationSplit(w: string, k: nat)
    requires NoDecoration(w) && k <= |w|
    ensures NoDecoration(w[..k]) && NoDecoration(w[k..])
  {
    assert forall i :: 0 <= i < k ==> w[..k][i] == w[i];
    assert forall i :: 0 <= i < |w| - k ==> w[k..][i] == w[k + i];
  }

  /** An amount written the way the page writes one, `$` and the whole part
      grouped by thousands, then the fraction, reads back as its value. */
  lemma ParseUSDGroupedAmount(d: Decimal)
    requires d.whole != [] && !d.negative
    ensures ParseUSD("$" + GroupThousands(DigitChars(d.whole))
                     + (if d.fraction == [] then "" else "." + DigitChars(d.fraction)))
            == DecimalValue(d)
  {
    var w := DigitChars(d.whole);
    var tail := if d.fraction == [] then "" else "." + DigitChars(d.fraction);
    RenderShape(d);
    assert Render(d) == w + tail;
    assert NoDecoration(w) && NoDecoration(tail) by {
      assert forall i :: 0 <= i < |w| ==> Render(d)[i] == w[i];
      assert forall i :: 0 <= i < |tail| ==> Render(d)[|w| + i] == tail[i];
    }
    StripGrouped(w);
    StripAppend("$" + GroupThousands(w), tail);
    StripAppend("$", GroupThousands(w));
    StripErases("$");
    StripKeeps(tail);
    ParseUSDDecorated("$" + GroupThousands(w) + tail, d);
  }

  /** `parseFloat` reads the longest number at the start and ignores the
      rest: a rendered decimal, with decoration before it, followed by text
      whose decoration-free form cannot extend the number, reads as that
      decimal (`"1 234"` reads as 1, `"$12.5 USD"` as 12.5). */
  lemma ParseUSDLeadingNumber(before: string, d: Decimal, rest: string)
    requires d.whole != [] && OnlyDecoration(before)
    requires StopsLiteral(StripDecoration(rest))
    ensures ParseUSD(before + Render(d) + rest) == DecimalValue(d)
  {
    var t := Render(d);
    var r := StripDecoration(rest);
    RenderShape(d);
    StripBefore(before, t, rest);
    StartsUnspaced(t, r);
    ReadRenderedStops(d, r);
  }

  /** Decoration before an undecorated string is all that stripping
      removes in front of it. */
  lemma StripBefore(before: string, t: string, rest: string)
    requires OnlyDecoration(before) && NoDecoration(t)
    ensures StripDecoration(before + t + rest) == t + StripDecoration(rest)
  {
    StripAppend(before + t, rest);
    StripAppend(before, t);
    StripErases(before);
    StripKeeps(t);
    assert [] + t == t;
  }

  lemma StartsUnspaced(t: string, r: string)
    requires t != [] && !IsSpace(t[0])
    ensures TrimStart(t + r) == t + r
  {
    assert (t + r)[0] == t[0];
  }

  /** Text after the number is ignored: `"1 234"` reads as 1. */
  lemma ParseUSDSpaceStops()
    ensures ParseUSD("1 234") == 1.0
  {
    var one := Decimal(false, [1], []);
    assert DigitsNat([1]) == 1;
    assert DecimalValue(one) == 1.0;
    assert Render(one) == "1" by {
      assert DigitChars([1]) == "1";
    }
    var text := "1 234";
    assert text == "" + Render(one) + text[1..];
    StripKeeps(text[1..]);
    ParseUSDLeadingNumber("", one, text[1..]);
  }

  /** The currency sign after a minus is removed: `"-$5"` reads as -5. */
  lemma ParseUSDSignBeforeCurrency()
    ensures ParseUSD("-$5") == -5.0
  {
    var five := Decimal(true, [5], []);
    assert DigitsNat([5]) == 5;
    assert DecimalValue(five) == -5.0;
    assert Render(five) == "-5" by {
      assert DigitChars([5]) == "5";
    }
    assert "-$5" == "-" + "$" + "5";
    StripAppend("-" + "$", "5");
    StripAppend("-", "$");
    ParseUSDDecorated("-$5", five);
  }

  /** Text that does not start with a number reads as 0: the empty cell,
      and a text that starts with a word (`garbage`, `Portfolio Value:`). */
  lemma ParseUSDNoNumber(s: string)
    requires s == [] || ((IsLower(s[0]) || IsUpper(s[0])) && s[0] != 'x' && s[0] != 'X')
    ensures ParseUSD(s) == 0.0
  {
    if s != [] {
      assert s == [s[0]] + s[1..];
      StripAppend([s[0]], s[1..]);
      var g := StripDecoration(s);
      assert g[0] == s[0];
      assert TrimStart(g) == g;
      assert SignLength(g) == 0;
    }
  }
}
