/** JavaScript's number parsing as the dashboard uses it: `parseFloat` and
    `parseInt` over form input, and the decimal strings the server sends for
    money and stock quantities. Numbers are exact reals; `NaN` is `None`. */
module JsNumber {
  import opened Wrappers
  import opened JsText

  predicate IsDigit(c: char) {
    '0' <= c <= '9'
  }

  function DigitValue(c: char): nat
    requires IsDigit(c)
  {
    c as int - '0' as int
  }

  function DigitChar(n: nat): (c: char)
    requires n < 10
    ensures IsDigit(c) && DigitValue(c) == n
  {
    ('0' as int + n) as char
  }

  predicate HasDigit(s: string) {
    exists i :: 0 <= i < |s| && IsDigit(s[i])
  }

  predicate AllDigits(s: string) {
    forall i :: 0 <= i < |s| ==> IsDigit(s[i])
  }

  /** The length of the run of decimal digits at the start of `s`. */
  function DigitRun(s: string): (n: nat)
    ensures n <= |s| && AllDigits(s[..n])
    ensures n < |s| ==> !IsDigit(s[n])
  {
    if |s| > 0 && IsDigit(s[0]) then 1 + DigitRun(s[1..]) else 0
  }

  /** The value of a string of decimal digits, most significant first. */
  function DigitsValue(s: string): nat
    requires AllDigits(s)
  {
    if |s| == 0 then 0 else 10 * DigitsValue(s[..|s| - 1]) + DigitValue(s[|s| - 1])
  }

  function Pow10(n: nat): (r: nat)
    ensures r >= 1
  {
    if n == 0 then 1 else 10 * Pow10(n - 1)
  }

  /** An integer mantissa times 10 raised to a possibly negative exponent. */
  function ScaleBy(m: nat, e: int): (r: real)
    ensures r >= 0.0
  {
    if e >= 0 then (m * Pow10(e)) as real else m as real / Pow10(-e) as real
  }

  /** Scaling distributes over a sum of mantissas. */
  lemma ScaleAdd(x: nat, y: nat, e: int)
    ensures ScaleBy(x + y, e) == ScaleBy(x, e) + ScaleBy(y, e)
  {
    if e >= 0 {
      assert (x + y) * Pow10(e) == x * Pow10(e) + y * Pow10(e);
    } else {
      DivideSum(x as real, y as real, Pow10(-e) as real);
    }
  }

  lemma DivideSum(x: real, y: real, p: real)
    requires p > 0.0
    ensures (x + y) / p == x / p + y / p
  {
  }

  /** Shifting `k` places left and scaling `k` places right cancel. */
  lemma ScaleShift(a: nat, k: nat)
    ensures ScaleBy(a * Pow10(k), -(k as int)) == a as real
  {
    if k > 0 {
      var p := Pow10(k);
      assert ScaleBy(a * p, -(k as int)) == (a * p) as real / p as real;
      DivideProduct(a, p);
    }
  }

  lemma DivideProduct(a: nat, p: nat)
    requires p >= 1
    ensures (a * p) as real / p as real == a as real
  {
    var x, q := a as real, p as real;
    assert (a * p) as real == x * q;
    assert x * q / q == x;
  }

  /** The value of fraction digits `d1 d2 ...` read after a point:
      `(d1 + 0.d2...) / 10`. */
  function FractionValue(f: string): (r: real)
    requires AllDigits(f)
    ensures 0.0 <= r < 1.0
  {
    if |f| == 0 then 0.0 else (DigitValue(f[0]) as real + FractionValue(f[1..])) / 10.0
  }

  /** The fraction digits read as one integer and scaled down by their
      number are the fraction's value. */
  lemma {:induction false} FractionScale(f: string)
    requires AllDigits(f)
    ensures ScaleBy(DigitsValue(f), -|f|) == FractionValue(f)
  {
    if |f| > 0 {
      var t := f[1..];
      FractionScale(t);
      assert f == [f[0]] + t;
      DigitsValueAppend([f[0]], t);
      assert DigitsValue([f[0]]) == DigitValue(f[0]) by {
        assert [f[0]][..0] == "";
      }
      var c, p := DigitValue(f[0]), Pow10(|t|);
      assert DigitsValue(f) == c * p + DigitsValue(t);
      assert Pow10(|f|) == 10 * p;
      assert ScaleBy(DigitsValue(t), -|t|) == DigitsValue(t) as real / p as real;
      ShiftOut(c, DigitsValue(t), p);
    }
  }

  /** Dividing `c * p + x` by `10 * p`: the leading digit moves behind the
      point. */
  lemma ShiftOut(c: nat, x: nat, p: nat)
    requires p >= 1
    ensures (c * p + x) as real / (10 * p) as real == (c as real + x as real / p as real) / 10.0
  {
    var cr, xr, pr := c as real, x as real, p as real;
    assert (c * p + x) as real == cr * pr + xr;
    assert (10 * p) as real == 10.0 * pr;
    assert (cr * pr + xr) / (10.0 * pr) == (cr + xr / pr) / 10.0;
  }

  /** The exponent part `e[+-]digits` at the start of `s`, or 0 when `s` does
      not start with a well-formed one (the rest is then ignored). */
  function ExponentOf(s: string): int
  {
    if |s| >= 2 && (s[0] == 'e' || s[0] == 'E') then
      var digits := if s[1] == '-' || s[1] == '+' then s[2..] else s[1..];
      var n := DigitRun(digits);
      var magnitude: int := DigitsValue(digits[..n]);
      if s[1] == '-' then -magnitude else magnitude
    else 0
  }

  /** `s` with one leading sign removed, and whether that sign was a minus. */
  function Unsign(t: string): (string, bool)
  {
    if |t| > 0 && (t[0] == '-' || t[0] == '+') then (t[1..], t[0] == '-') else (t, false)
  }

  /** The value of the longest prefix of `u` of the form
      `digits[.digits][e[+-]digits]` with at least one mantissa digit: the
      mantissa digits read as one integer, scaled by the exponent less the
      number of fraction digits. */
  function UnsignedValue(u: string): Option<real>
  {
    var i := DigitRun(u);
    if i < |u| && u[i] == '.' then
      var w := u[i + 1..];
      var f := DigitRun(w);
      if i + f == 0 then None
      else
        var mantissa := u[..i] + w[..f];
        assert AllDigits(mantissa) by {
          forall k | 0 <= k < |mantissa| ensures IsDigit(mantissa[k]) {
            if k < i { assert mantissa[k] == u[..i][k]; } else { assert mantissa[k] == w[..f][k - i]; }
          }
        }
        Some(ScaleBy(DigitsValue(mantissa), ExponentOf(w[f..]) - f))
    else if i == 0 then None
    else Some(ScaleBy(DigitsValue(u[..i]), ExponentOf(u[i..])))
  }

  /** A number starts with a digit, or with a point and a digit; a leading
      digit always gives a number. */
  lemma UnsignedStart(u: string)
    ensures UnsignedValue(u).Some? ==> |u| > 0 && (IsDigit(u[0]) || (u[0] == '.' && |u| > 1 && IsDigit(u[1])))
    ensures |u| > 0 && IsDigit(u[0]) ==> UnsignedValue(u).Some?
  {
  }

  /** `parseFloat`: skip white space, read an optional sign, then the longest
      number-shaped prefix; anything after it is ignored. No digit gives `NaN`.
      (`Infinity` is not modelled.) */
  function ParseFloat(s: string): (r: Option<real>)
    ensures !HasDigit(s) ==> r.None?
    ensures |s| > 0 && IsDigit(s[0]) ==> r.Some?
  {
    var unsigned := Unsign(TrimStart(s));
    UnsignedStart(unsigned.0);
    match UnsignedValue(unsigned.0)
    case None => None
    case Some(m) => Some(if unsigned.1 then -m else m)
  }

  /** The page guard `parseFloat(x) <= 0`: true only for input that parses to
      a number at most zero. `NaN <= 0` is false, so unparseable input is not
      rejected by it. */
  predicate NonPositive(s: string) {
    AtMostZero(ParseFloat(s))
  }

  /** `n <= 0` on a parsed number; false for `NaN`. */
  predicate AtMostZero(n: Option<real>) {
    n.Some? && n.value <= 0.0
  }

  /** `x || 0` on a parsed number: `NaN` and zero both become 0. */
  function OrZero(n: Option<real>): (r: real)
    ensures n.Some? && n.value != 0.0 ==> r == n.value
    ensures n.None? ==> r == 0.0
  {
    match n
    case Some(v) => v
    case None => 0.0
  }

  predicate IsHexDigit(c: char) {
    IsDigit(c) || 'a' <= c <= 'f' || 'A' <= c <= 'F'
  }

  function HexDigitValue(c: char): (n: nat)
    requires IsHexDigit(c)
    ensures n < 16
  {
    if IsDigit(c) then DigitValue(c)
    else if 'a' <= c <= 'f' then c as int - 'a' as int + 10
    else c as int - 'A' as int + 10
  }

  predicate AllHex(s: string) {
    forall i :: 0 <= i < |s| ==> IsHexDigit(s[i])
  }

  function HexRun(s: string): (n: nat)
    ensures n <= |s| && AllHex(s[..n])
  {
    if |s| > 0 && IsHexDigit(s[0]) then 1 + HexRun(s[1..]) else 0
  }

  function HexValue(s: string): nat
    requires AllHex(s)
  {
    if |s| == 0 then 0 else 16 * HexValue(s[..|s| - 1]) + HexDigitValue(s[|s| - 1])
  }

  /** The digits of `parseInt` after the sign: hex digits after a `0x`/`0X`
      prefix, decimal digits otherwise. */
  function UnsignedInt(u: string): (r: Option<nat>)
    ensures r.Some? ==> |u| > 0 && IsDigit(u[0])
  {
    if |u| >= 2 && u[0] == '0' && (u[1] == 'x' || u[1] == 'X') then
      var v := u[2..];
      var h := HexRun(v);
      if h == 0 then None else Some(HexValue(v[..h]))
    else
      var n := DigitRun(u);
      if n == 0 then None else Some(DigitsValue(u[..n]))
  }

  /** A string of digits is one whole run. */
  lemma DigitRunAll(s: string)
    ensures AllDigits(s) ==> DigitRun(s) == |s| && s[..DigitRun(s)] == s
  {
    if AllDigits(s) {
      DigitRunOf(s, "");
      assert s + "" == s;
    }
  }

  /** `parseInt` with no radix: white space, an optional sign, then the
      digits; no digit gives `NaN`. */
  function ParseInt(s: string): (r: Option<int>)
    ensures !HasDigit(s) ==> r.None?
    ensures AllDigits(s) && |s| > 0 ==> r == Some(DigitsValue(s))
  {
    DigitRunAll(s);
    var (u, negative) := Unsign(TrimStart(s));
    match UnsignedInt(u)
    case None => None
    case Some(m) => Some(if negative then -(m as int) else m)
  }

  /** The decimal rendering of a natural number, as `String(n)` writes it. */
  function NatToString(n: nat): (r: string)
    ensures |r| >= 1 && AllDigits(r)
    ensures DigitsValue(r) == n
  {
    if n < 10 then [DigitChar(n)]
    else
      var r := NatToString(n / 10) + [DigitChar(n % 10)];
      assert r[..|r| - 1] == NatToString(n / 10);
      r
  }

  lemma {:induction false} NatToStringLength(n: nat, k: nat)
    requires n < Pow10(k) && k >= 1
    ensures |NatToString(n)| <= k
  {
    if n >= 10 {
      NatToStringLength(n / 10, k - 1);
    }
  }

  /** A run of digits followed by a non-digit is read up to the non-digit. */
  lemma {:induction false} DigitRunOf(digits: string, rest: string)
    requires AllDigits(digits)
    requires |rest| > 0 ==> !IsDigit(rest[0])
    ensures DigitRun(digits + rest) == |digits|
  {
    if |digits| == 0 {
      assert digits + rest == rest;
    } else {
      assert (digits + rest)[1..] == digits[1..] + rest;
      DigitRunOf(digits[1..], rest);
    }
  }

  type Digits = s: string | AllDigits(s)

  /** A decimal as the server's JSON carries money and stock quantities:
      a sign, the integer part and the fraction digits exactly as written
      ("1500.00" has whole 1500 and fraction "00"). */
  datatype Decimal = Decimal(negative: bool, whole: nat, fraction: Digits) {
    /** The exact value: the integer part plus the fraction, with the
        sign. */
    function Value(): real {
      var m := whole as real + FractionValue(fraction);
      if negative then -m else m
    }
  }

  /** The rendering of a decimal without its sign. */
  function Magnitude(d: Decimal): string {
    NatToString(d.whole) + (if |d.fraction| == 0 then "" else "." + d.fraction)
  }

  /** The string form of a decimal: sign, integer digits, then the fraction
      digits after a point when there are any. */
  function Render(d: Decimal): string {
    (if d.negative then "-" else "") + Magnitude(d)
  }

  /** `parseFloat` of a server decimal. The client parses the string form; the
      result is always the decimal's exact value. */
  function ParseDecimal(d: Decimal): (r: Option<real>)
    ensures r == Some(d.Value())
  {
    ParseRender(d);
    ParseFloat(Render(d))
  }

  /** Reading an integer part followed by nothing. */
  lemma {:induction false} UnsignedWhole(whole: string)
    requires |whole| >= 1 && AllDigits(whole)
    ensures UnsignedValue(whole) == Some(DigitsValue(whole) as real)
  {
    DigitRunOf(whole, "");
    assert whole + "" == whole;
    assert whole[..|whole|] == whole;
    assert whole[|whole|..] == "";
    assert ExponentOf("") == 0;
  }

  /** Reading an integer part, a point and a fraction, followed by nothing. */
  lemma {:induction false} UnsignedPointed(whole: string, frac: string, v: real)
    requires AllDigits(whole) && AllDigits(frac) && |whole| + |frac| >= 1
    requires AllDigits(whole + frac) && ScaleBy(DigitsValue(whole + frac), -|frac|) == v
    ensures UnsignedValue(whole + "." + frac) == Some(v)
  {
    var u := whole + "." + frac;
    DigitRunOf(whole, "." + frac);
    assert u == whole + ("." + frac);
    var i := |whole|;
    assert u[..i] == whole;
    assert u[i] == '.';
    var w := u[i + 1..];
    assert w == frac;
    DigitRunOf(frac, "");
    assert frac + "" == frac;
    assert w[..|frac|] == frac;
    assert w[|frac|..] == "";
    assert ExponentOf("") == 0;
    assert AllDigits(whole + frac) by {
      forall k | 0 <= k < |whole + frac| ensures IsDigit((whole + frac)[k]) {
        if k >= |whole| { assert (whole + frac)[k] == frac[k - |whole|]; }
      }
    }
  }

  /** A digit string split in two: the head counts in units of `10^|tail|`. */
  lemma {:induction false} DigitsValueAppend(head: string, tail: string)
    requires AllDigits(head) && AllDigits(tail)
    ensures AllDigits(head + tail)
    ensures DigitsValue(head + tail) == DigitsValue(head) * Pow10(|tail|) + DigitsValue(tail)
  {
    var s := head + tail;
    assert AllDigits(s) by {
      forall k | 0 <= k < |s| ensures IsDigit(s[k]) {
        if k >= |head| { assert s[k] == tail[k - |head|]; }
      }
    }
    if |tail| == 0 {
      assert s == head;
    } else {
      var t := tail[..|tail| - 1];
      assert s[..|s| - 1] == head + t;
      DigitsValueAppend(head, t);
      assert s[|s| - 1] == tail[|tail| - 1];
      assert Pow10(|tail|) == 10 * Pow10(|t|);
      ShiftDigit(DigitsValue(head), Pow10(|t|), DigitsValue(t), DigitValue(tail[|tail| - 1]));
    }
  }

  lemma ShiftDigit(x: nat, p: nat, y: nat, c: nat)
    ensures 10 * (x * p + y) + c == x * (10 * p) + (10 * y + c)
  {
  }

  lemma {:induction false} UnsignRender(d: Decimal)
    ensures Unsign(TrimStart(Render(d))) == (Magnitude(d), d.negative)
  {
    var s := Render(d);
    var m := Magnitude(d);
    var w := NatToString(d.whole);
    assert m[0] == w[0];
    if d.negative {
      assert s == "-" + m;
      assert s[0] == '-' && s[1..] == m;
    } else {
      assert s == m;
    }
    assert !IsWhite(s[0]);
    assert TrimStart(s) == s;
  }

  /** The digits of `w.f` read as one mantissa and scaled back by `|f|`
      are the integer part plus the scaled fraction. */
  lemma PointedSplit(w: string, f: string)
    requires AllDigits(w) && AllDigits(f)
    ensures AllDigits(w + f)
    ensures ScaleBy(DigitsValue(w + f), -|f|) == DigitsValue(w) as real + ScaleBy(DigitsValue(f), -|f|)
  {
    DigitsValueAppend(w, f);
    ScaleAdd(DigitsValue(w) * Pow10(|f|), DigitsValue(f), -|f|);
    ScaleShift(DigitsValue(w), |f|);
  }

  /** Reading `w.f` gives the integer part plus the scaled fraction. */
  lemma PointedValue(w: string, f: string)
    requires AllDigits(w) && AllDigits(f) && |w| >= 1 && |f| >= 1
    ensures UnsignedValue(w + "." + f) == Some(DigitsValue(w) as real + FractionValue(f))
  {
    PointedReading(w, f);
    assert UnsignedValue(w + "." + f) == Some(DigitsValue(w) as real + FractionValue(f)) by {
      UnsignedPointed(w, f, DigitsValue(w) as real + FractionValue(f));
    }
  }

  /** The mantissa of `w.f` scaled back is the integer part plus the
      fraction's value. */
  lemma PointedReading(w: string, f: string)
    requires AllDigits(w) && AllDigits(f)
    ensures AllDigits(w + f)
    ensures ScaleBy(DigitsValue(w + f), -|f|) == DigitsValue(w) as real + FractionValue(f)
  {
    PointedSplit(w, f);
    FractionScale(f);
  }

  /** Reading the unsigned rendering gives the integer part plus the scaled
      fraction. */
  lemma UnsignedMagnitude(d: Decimal)
    ensures UnsignedValue(Magnitude(d)) == Some(d.whole as real + FractionValue(d.fraction))
  {
    if |d.fraction| == 0 {
      WholeMagnitude(d);
    } else {
      PointedMagnitude(d);
    }
  }

  lemma WholeMagnitude(d: Decimal)
    requires |d.fraction| == 0
    ensures UnsignedValue(Magnitude(d)) == Some(d.whole as real)
  {
    var w := NatToString(d.whole);
    assert Magnitude(d) == w;
    UnsignedWhole(w);
  }

  lemma PointedMagnitude(d: Decimal)
    requires |d.fraction| > 0
    ensures UnsignedValue(Magnitude(d)) == Some(d.whole as real + FractionValue(d.fraction))
  {
    PointedForm(d);
    PointedValue(NatToString(d.whole), d.fraction);
  }

  lemma PointedForm(d: Decimal)
    requires |d.fraction| > 0
    ensures Magnitude(d) == NatToString(d.whole) + "." + d.fraction
  {
  }

  /** `parseFloat` assembled from its sign and its unsigned reading. */
  lemma ParseFloatParts(s: string, u: string, negative: bool, m: real)
    requires Unsign(TrimStart(s)) == (u, negative)
    requires UnsignedValue(u) == Some(m)
    ensures ParseFloat(s) == Some(if negative then -m else m)
  {
    var unsigned := Unsign(TrimStart(s));
    assert unsigned.0 == u && unsigned.1 == negative;
  }

  /** The round trip that justifies treating server decimals as exact
      numbers: `parseFloat` of the rendering returns the decimal's value. */
  lemma ParseRender(d: Decimal)
    ensures ParseFloat(Render(d)) == Some(d.Value())
  {
    var m := d.whole as real + FractionValue(d.fraction);
    assert d.Value() == if d.negative then -m else m;
    UnsignedMagnitude(d);
    SignedReading(d, m);
  }

  /** The sign in front of the rendering applies to the magnitude read. */
  lemma SignedReading(d: Decimal, m: real)
    requires UnsignedValue(Magnitude(d)) == Some(m)
    ensures ParseFloat(Render(d)) == Some(if d.negative then -m else m)
  {
    UnsignRender(d);
    ParseFloatParts(Render(d), Magnitude(d), d.negative, m);
  }

  /** `parseInt` reads back what `String(n)` wrote, so an id that went
      through a `<select>` option value finds its record again. */
  lemma ParseIntOfNat(n: nat)
    ensures ParseInt(NatToString(n)) == Some(n)
  {
    var s := NatToString(n);
    assert TrimStart(s) == s by {
      assert !IsWhite(s[0]);
    }
    assert Unsign(s) == (s, false);
    DigitRunOf(s, "");
    assert s + "" == s;
    assert s[..|s|] == s;
    if |s| >= 2 && s[0] == '0' {
      assert s[1] != 'x' && s[1] != 'X';
    }
    assert UnsignedInt(s) == Some(n);
  }
}
