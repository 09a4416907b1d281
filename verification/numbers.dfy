/** The JavaScript number conversions the client and the store rely on:
    `parseFloat` on form text, `Number(value)` on stored fields, and the
    decimal text `toString` gives an amount. Numbers are exact reals here;
    `NaN` is `None`. */
module Numbers {
  import opened Wrappers

  predicate IsDigit(c: char) {
    '0' <= c <= '9'
  }

  predicate AllDigits(s: string) {
    forall i :: 0 <= i < |s| ==> IsDigit(s[i])
  }

  function DigitValue(c: char): nat
    requires IsDigit(c)
  {
    (c as int) - ('0' as int)
  }

  function DigitChar(d: nat): (c: char)
    requires d < 10
    ensures IsDigit(c) && DigitValue(c) == d
  {
    (('0' as int) + d) as char
  }

  /** The whitespace and line terminators JavaScript strips around numeric text. */
  predicate IsSpace(c: char) {
    || c == ' ' || c == '\t' || c == '\n' || c == '\r' || c == '\U{000B}' || c == '\U{000C}'
    || c == '\U{00A0}' || c == '\U{1680}' || ('\U{2000}' <= c <= '\U{200A}')
    || c == '\U{2028}' || c == '\U{2029}' || c == '\U{202F}' || c == '\U{205F}'
    || c == '\U{3000}' || c == '\U{FEFF}'
  }

  function TrimStart(s: string): (r: string)
    ensures |r| <= |s| && r == s[|s| - |r|..]
    ensures forall k :: 0 <= k < |s| - |r| ==> IsSpace(s[k])
    ensures |r| == 0 || !IsSpace(r[0])
  {
    if |s| > 0 && IsSpace(s[0]) then TrimStart(s[1..]) else s
  }

  function TrimEnd(s: string): (r: string)
    ensures |r| <= |s| && r == s[..|r|]
    ensures forall k :: |r| <= k < |s| ==> IsSpace(s[k])
    ensures |r| == 0 || !IsSpace(r[|r| - 1])
  {
    if |s| > 0 && IsSpace(s[|s| - 1]) then TrimEnd(s[..|s| - 1]) else s
  }

  function Trim(s: string): string {
    TrimEnd(TrimStart(s))
  }

  function Pow10(n: nat): (p: nat)
    ensures p >= 1
  {
    if n == 0 then 1 else 10 * Pow10(n - 1)
  }

  /** The whole number a digit string writes, most significant digit first. */
  function WholeValue(ds: string): nat
    requires AllDigits(ds)
  {
    if |ds| == 0 then 0 else WholeValue(ds[..|ds| - 1]) * 10 + DigitValue(ds[|ds| - 1])
  }

  /** The fraction the digits after a decimal point write. */
  function FractionValue(ds: string): real
    requires AllDigits(ds)
  {
    if |ds| == 0 then 0.0 else (DigitValue(ds[0]) as real + FractionValue(ds[1..])) / 10.0
  }

  /** A decimal literal: sign, digits before and after the point, and an
      optional exponent (an empty `exponent` means none). */
  datatype Numeral = Numeral(negative: bool, whole: string, fraction: string, exponentNegative: bool, exponent: string)
  {
    predicate Valid() {
      AllDigits(whole) && AllDigits(fraction) && AllDigits(exponent) && (|whole| > 0 || |fraction| > 0)
    }

    function Value(): real
      requires Valid()
    {
      var magnitude := WholeValue(whole) as real + FractionValue(fraction);
      var scale := Pow10(WholeValue(exponent)) as real;
      var scaled := if exponentNegative then magnitude / scale else magnitude * scale;
      if negative then -scaled else scaled
    }
  }

  /** A numeral found at the start of a text, and how many characters it spans. */
  datatype Scanned = Scanned(numeral: Numeral, length: nat)

  /** The end of the run of digits that starts at `i`. */
  function DigitRun(s: string, i: nat): (j: nat)
    requires i <= |s|
    ensures i <= j <= |s| && AllDigits(s[i..j])
    ensures j == |s| || !IsDigit(s[j])
    decreases |s| - i
  {
    if i < |s| && IsDigit(s[i]) then
      var j := DigitRun(s, i + 1);
      assert s[i..j] == [s[i]] + s[i + 1..j];
      j
    else i
  }

  predicate IsSign(c: char) {
    c == '+' || c == '-'
  }

  /** The exponent part at `i`, if there is one with at least one digit:
      its sign, its digits and where it ends; otherwise nothing is consumed. */
  function ScanExponent(s: string, i: nat): (r: (bool, string, nat))
    requires i <= |s|
    ensures AllDigits(r.1) && i <= r.2 <= |s|
    ensures r.2 == i ==> r == (false, "", i)
  {
    if i < |s| && (s[i] == 'e' || s[i] == 'E') then
      var j0 := if i + 1 < |s| && IsSign(s[i + 1]) then i + 2 else i + 1;
      var j := DigitRun(s, j0);
      if j > j0 then (j0 == i + 2 && s[i + 1] == '-', s[j0..j], j) else (false, "", i)
    else (false, "", i)
  }

  /** The part of a numeral before any exponent, at the start of `s`: an
      optional sign, digits, and an optional point with digits, at least one
      digit in all. Gives the sign, both digit strings and where it ends. */
  function ScanMantissa(s: string): (r: Option<(bool, string, string, nat)>)
    ensures r.Some? ==> AllDigits(r.value.1) && AllDigits(r.value.2) && r.value.3 <= |s|
    ensures r.Some? ==> |r.value.1| > 0 || |r.value.2| > 0
  {
    var i0 := if |s| > 0 && IsSign(s[0]) then 1 else 0;
    var w := DigitRun(s, i0);
    var point := w < |s| && s[w] == '.';
    var f := if point then DigitRun(s, w + 1) else w;
    var whole := s[i0..w];
    var fraction := if point then s[w + 1..f] else "";
    if |whole| == 0 && |fraction| == 0 then None
    else Some((i0 == 1 && s[0] == '-', whole, fraction, f))
  }

  /** The longest decimal literal at the start of `s`: a mantissa and an
      optional exponent. */
  function Scan(s: string): (r: Option<Scanned>)
    ensures r.Some? ==> r.value.numeral.Valid() && r.value.length <= |s|
  {
    match ScanMantissa(s)
    case None => None
    case Some(m) =>
      var e := ScanExponent(s, m.3);
      Some(Scanned(Numeral(m.0, m.1, m.2, e.0, e.1), e.2))
  }

  /** The text begins with a numeral: after an optional sign, a digit, or a
      point followed by a digit. */
  predicate StartsNumeral(s: string) {
    var i := if |s| > 0 && IsSign(s[0]) then 1 else 0;
    (i < |s| && IsDigit(s[i])) || (i + 1 < |s| && s[i] == '.' && IsDigit(s[i + 1]))
  }

  /** `parseFloat(s)`: leading whitespace is skipped and the longest numeral
      there is read; the result is a number exactly when a numeral starts there. */
  function ParseFloat(s: string): (r: Option<real>)
    ensures r.Some? <==> StartsNumeral(TrimStart(s))
  {
    ScanFinds(TrimStart(s));
    match Scan(TrimStart(s))
    case None => None
    case Some(sc) => Some(sc.numeral.Value())
  }

  /** A numeral is found exactly where one starts. */
  lemma ScanFinds(t: string)
    ensures Scan(t).Some? <==> StartsNumeral(t)
  {
    var i0 := if |t| > 0 && IsSign(t[0]) then 1 else 0;
    var w := DigitRun(t, i0);
    assert w > i0 <==> i0 < |t| && IsDigit(t[i0]);
    if w < |t| && t[w] == '.' {
      var f := DigitRun(t, w + 1);
      assert f > w + 1 <==> w + 1 < |t| && IsDigit(t[w + 1]);
    }
  }

  /** The whole of `t` is one decimal literal: the longest numeral at its
      start runs to its end. */
  predicate WholeNumeral(t: string) {
    Scan(t).Some? && Scan(t).value.length == |t|
  }

  /** `Number(s)` for a string: blank text is 0, otherwise the whole trimmed
      text must be one numeral, and its value is that numeral's. */
  function ToNumber(s: string): (r: Option<real>)
    ensures Trim(s) == "" ==> r == Some(0.0)
    ensures Trim(s) != "" ==> (r.Some? <==> WholeNumeral(Trim(s)))
    ensures Trim(s) != "" && r.Some? ==> r == Some(Scan(Trim(s)).value.numeral.Value())
    ensures r.Some? && Trim(s) != "" ==> StartsNumeral(Trim(s))
  {
    var t := Trim(s);
    ScanFinds(t);
    if t == "" then Some(0.0)
    else match Scan(t)
      case None => None
      case Some(sc) => if sc.length == |t| then Some(sc.numeral.Value()) else None
  }

  /** A run of digits ends at the same place when text that does not start with
      a digit follows. */
  lemma DigitRunExtend(s: string, tail: string, i: nat)
    requires i <= |s|
    requires DigitRun(s, i) < |s| || |tail| == 0 || !IsDigit(tail[0])
    ensures DigitRun(s + tail, i) == DigitRun(s, i)
    decreases |s| - i
  {
    if i < |s| && IsDigit(s[i]) {
      DigitRunExtend(s, tail, i + 1);
    }
  }

  /** Whitespace ends every part of a numeral. */
  lemma SpaceEndsNumeral(c: char)
    requires IsSpace(c)
    ensures !IsDigit(c) && !IsSign(c) && c != '.' && c != 'e' && c != 'E'
  {
  }

  /** An exponent part that reaches the end of `s` is read the same when
      whitespace follows. */
  lemma ExponentExtend(s: string, tail: string, i: nat)
    requires i <= |s| && ScanExponent(s, i).2 == |s|
    requires |tail| == 0 || IsSpace(tail[0])
    ensures ScanExponent(s + tail, i) == ScanExponent(s, i)
  {
    var u := s + tail;
    if |tail| > 0 {
      SpaceEndsNumeral(tail[0]);
    }
    if i < |s| {
      assert u[i] == s[i];
      var j0 := if i + 1 < |s| && IsSign(s[i + 1]) then i + 2 else i + 1;
      assert j0 <= |s|;
      if i + 1 < |s| {
        assert u[i + 1] == s[i + 1];
      }
      DigitRunExtend(s, tail, j0);
      var j := DigitRun(s, j0);
      assert u[j0..j] == s[j0..j];
    }
  }

  /** A run of digits ends at the same place in a longer text whose extra
      part does not start with a digit. */
  lemma DigitRunPrefix(s: string, u: string, i: nat)
    requires i <= |s| <= |u| && u[..|s|] == s
    requires DigitRun(s, i) < |s| || |u| == |s| || !IsDigit(u[|s|])
    ensures DigitRun(u, i) == DigitRun(s, i)
    decreases |s| - i
  {
    if i < |s| {
      assert u[i] == s[i];
      if IsDigit(s[i]) {
        DigitRunPrefix(s, u, i + 1);
      }
    }
  }

  /** A mantissa is read the same when whitespace follows the text, provided
      it does not stop before the end of the text. */
  lemma MantissaExtend(s: string, tail: string)
    requires ScanMantissa(s).Some?
    requires |tail| == 0 || IsSpace(tail[0])
    ensures ScanMantissa(s + tail) == ScanMantissa(s)
  {
    var u := s + tail;
    assert u[..|s|] == s;
    if |tail| > 0 {
      assert u[|s|] == tail[0];
      SpaceEndsNumeral(tail[0]);
    }
    MantissaPrefix(s, u);
  }

  lemma MantissaPrefix(s: string, u: string)
    requires ScanMantissa(s).Some? && |s| <= |u| && u[..|s|] == s
    requires |u| == |s| || (!IsDigit(u[|s|]) && u[|s|] != '.')
    ensures ScanMantissa(u) == ScanMantissa(s)
  {
    var i0 := if |s| > 0 && IsSign(s[0]) then 1 else 0;
    if |s| > 0 {
      PrefixSlice(s, u, 0, 1);
    }
    var w := DigitRun(s, i0);
    DigitRunPrefix(s, u, i0);
    PrefixSlice(s, u, i0, w);
    if w < |s| {
      PrefixSlice(s, u, w, w + 1);
      if s[w] == '.' {
        DigitRunPrefix(s, u, w + 1);
        PrefixSlice(s, u, w + 1, DigitRun(s, w + 1));
      }
    }
  }

  /** Within the shorter text, a longer text that starts with it agrees with it. */
  lemma PrefixSlice(s: string, u: string, a: nat, b: nat)
    requires a <= b <= |s| <= |u| && u[..|s|] == s
    ensures u[a..b] == s[a..b]
    ensures a < b ==> u[a] == s[a]
  {
    forall k | a <= k < b
      ensures u[k] == s[k]
    {
      assert u[..|s|][k] == u[k];
    }
    assert u[a..b] == s[a..b];
  }

  /** A numeral that spans all of `s` is read the same when whitespace follows. */
  lemma ScanExtend(s: string, tail: string)
    requires Scan(s).Some? && Scan(s).value.length == |s|
    requires |tail| == 0 || IsSpace(tail[0])
    ensures Scan(s + tail) == Scan(s)
  {
    MantissaExtend(s, tail);
    ExponentExtend(s, tail, ScanMantissa(s).value.3);
  }

  /** Where `Number(s)` is a number for non-blank text, `parseFloat(s)` reads
      the same number: the strict conversion never disagrees with the lenient one. */
  lemma NumberAgreesWithParseFloat(s: string)
    requires ToNumber(s).Some? && Trim(s) != ""
    ensures ParseFloat(s) == ToNumber(s)
  {
    var u := TrimStart(s);
    var t := TrimEnd(u);
    assert u == t + u[|t|..];
    ScanExtend(t, u[|t|..]);
  }

  // ---- Rendering an amount as text ----

  predicate IsIntegral(x: real) {
    x == x.Floor as real
  }

  /** Decimal digits of a natural number, without leading zeros. */
  function ShowNat(n: nat): (r: string)
    ensures |r| >= 1 && AllDigits(r)
    ensures WholeValue(r) == n
    ensures |r| > 1 ==> r[0] != '0'
  {
    if n < 10 then [DigitChar(n)]
    else
      var r := ShowNat(n / 10) + [DigitChar(n % 10)];
      assert r[..|r| - 1] == ShowNat(n / 10);
      r
  }

  /** The digits of a fraction in [0, 1), at most `fuel` of them, stopping as
      soon as the remainder is zero. */
  function FractionDigits(f: real, fuel: nat): (r: string)
    requires 0.0 <= f < 1.0
    ensures AllDigits(r) && |r| <= fuel
    ensures |r| == 0 <==> fuel == 0 || f == 0.0
    decreases fuel
  {
    if fuel == 0 || f == 0.0 then ""
    else
      [DigitChar((f * 10.0).Floor)] + FractionDigits(NextFraction(f), fuel - 1)
  }

  /** The most fractional digits an amount is written with. */
  const MaxFractionDigits: nat := 20

  /** Numeral text laid out from its parts: a sign, the whole digits, and a
      point with the fractional digits when there are any. */
  function Layout(sign: string, whole: string, fraction: string): string {
    sign + whole + (if |fraction| == 0 then "" else "." + fraction)
  }

  function Magnitude(r: real): (m: real)
    ensures m >= 0.0 && (m == r || m == -r)
  {
    if r < 0.0 then -r else r
  }

  function WholePart(r: real): nat {
    Magnitude(r).Floor
  }

  function FractionPart(r: real): (f: real)
    ensures 0.0 <= f < 1.0
    ensures WholePart(r) as real + f == Magnitude(r)
  {
    Magnitude(r) - WholePart(r) as real
  }

  /** `amount.toString()` in plain decimal notation: a minus sign for negative
      amounts, the whole part, and the fractional digits when there are any. */
  function Show(r: real): string
  {
    Layout(if r < 0.0 then "-" else "", ShowNat(WholePart(r)),
      if FractionPart(r) == 0.0 then "" else FractionDigits(FractionPart(r), MaxFractionDigits))
  }

  /** The remainder after taking one more decimal digit off a fraction. */
  function NextFraction(f: real): (g: real)
    requires 0.0 <= f < 1.0
    ensures 0.0 <= g < 1.0
    ensures f * 10.0 == (f * 10.0).Floor as real + g
  {
    f * 10.0 - (f * 10.0).Floor as real
  }

  /** `x * 10^k`, taken one factor of ten at a time so that it stays linear. */
  function Shifted(x: real, k: nat): real
    decreases k
  {
    if k == 0 then x else Shifted(x * 10.0, k - 1)
  }

  lemma {:induction false} ShiftedAdd(a: real, b: real, k: nat)
    ensures Shifted(a + b, k) == Shifted(a, k) + Shifted(b, k)
    decreases k
  {
    if k > 0 {
      assert (a + b) * 10.0 == a * 10.0 + b * 10.0;
      ShiftedAdd(a * 10.0, b * 10.0, k - 1);
    }
  }

  lemma {:induction false} ShiftedNegate(a: real, k: nat)
    ensures Shifted(-a, k) == -Shifted(a, k)
    decreases k
  {
    if k > 0 {
      assert -a * 10.0 == -(a * 10.0);
      ShiftedNegate(a * 10.0, k - 1);
    }
  }

  /** A whole number shifted left stays whole. */
  lemma {:induction false} ShiftedWhole(m: int, k: nat) returns (n: int)
    ensures Shifted(m as real, k) == n as real
    decreases k
  {
    if k == 0 {
      n := m;
    } else {
      assert m as real * 10.0 == (m * 10) as real;
      n := ShiftedWhole(m * 10, k - 1);
    }
  }

  /** If a fraction has at most `k` decimal places (`f` shifted by `k` is the
      whole number `n`), the remainder after its next digit has at most `k - 1`. */
  lemma IntegralStep(f: real, k: nat, n: int) returns (m: int)
    requires 0.0 <= f < 1.0 && k > 0
    requires Shifted(f, k) == n as real
    ensures Shifted(NextFraction(f), k - 1) == m as real
  {
    var d := (f * 10.0).Floor;
    assert f * 10.0 == d as real + NextFraction(f);
    assert Shifted(f, k) == Shifted(d as real + NextFraction(f), k - 1);
    ShiftedAdd(d as real, NextFraction(f), k - 1);
    var e := ShiftedWhole(d, k - 1);
    m := n - e;
  }

  lemma FractionDigitsStep(f: real, fuel: nat)
    requires 0.0 < f < 1.0 && fuel > 0
    ensures FractionValue(FractionDigits(f, fuel))
      == ((f * 10.0).Floor as real + FractionValue(FractionDigits(NextFraction(f), fuel - 1))) / 10.0
  {
    var ds := FractionDigits(f, fuel);
    assert ds == [DigitChar((f * 10.0).Floor)] + FractionDigits(NextFraction(f), fuel - 1);
    assert ds[1..] == FractionDigits(NextFraction(f), fuel - 1);
  }

  /** A fraction with at most `k` decimal places (`f` shifted by `k` is
      the integer `n`) is written out exactly when `k` digits are allowed. */
  lemma {:induction false} FractionDigitsRoundTrip(f: real, k: nat, n: int, fuel: nat)
    requires 0.0 <= f < 1.0 && k <= fuel
    requires Shifted(f, k) == n as real
    ensures FractionValue(FractionDigits(f, fuel)) == f
    decreases fuel
  {
    if k == 0 {
      assert f == n as real;
    } else if f != 0.0 {
      var m := IntegralStep(f, k, n);
      FractionDigitsRoundTrip(NextFraction(f), k - 1, m, fuel - 1);
      FractionDigitsStep(f, fuel);
    }
  }

  /** A numeral text: optional minus, whole digits, and a point with digits
      when there is a fraction, scans as exactly that numeral. */
  lemma ScanPlain(sign: string, whole: string, fraction: string)
    requires sign == "" || sign == "-"
    requires |whole| > 0 && AllDigits(whole) && AllDigits(fraction)
    ensures Scan(Layout(sign, whole, fraction))
      == Some(Scanned(Numeral(sign == "-", whole, fraction, false, ""), |Layout(sign, whole, fraction)|))
  {
    var s := Layout(sign, whole, fraction);
    var i0 := |sign|;
    assert |s| > 0 && (IsSign(s[0]) <==> sign == "-");
    var rest := if |fraction| == 0 then "" else "." + fraction;
    assert s == (sign + whole) + rest;
    DigitRunToEnd(sign + whole, i0);
    DigitRunExtend(sign + whole, rest, i0);
    var w := DigitRun(s, i0);
    assert w == i0 + |whole|;
    assert s[i0..w] == whole;
    if |fraction| > 0 {
      assert s[w] == '.';
      var t := sign + whole + ".";
      assert s == t + fraction;
      DigitRunSuffix(t, fraction);
      assert s[w + 1..|s|] == fraction;
    }
  }

  lemma {:induction false} DigitRunToEnd(s: string, i: nat)
    requires i <= |s| && AllDigits(s[i..])
    ensures DigitRun(s, i) == |s|
    decreases |s| - i
  {
    if i < |s| {
      assert s[i] == s[i..][0];
      assert s[i + 1..] == s[i..][1..];
      DigitRunToEnd(s, i + 1);
    }
  }

  lemma DigitRunSuffix(t: string, ds: string)
    requires AllDigits(ds)
    ensures DigitRun(t + ds, |t|) == |t + ds|
  {
    assert (t + ds)[|t|..] == ds;
    DigitRunToEnd(t + ds, |t|);
  }

  /** When the amount has at most `k` decimal places, so does its fractional part. */
  lemma FractionPartScaled(r: real, k: nat, n: int) returns (j: int)
    requires Shifted(r, k) == n as real
    ensures Shifted(FractionPart(r), k) == j as real
  {
    var w := WholePart(r);
    assert FractionPart(r) == Magnitude(r) + -(w as real);
    ShiftedAdd(Magnitude(r), -(w as real), k);
    ShiftedNegate(w as real, k);
    var e := ShiftedWhole(w, k);
    if r < 0.0 {
      ShiftedNegate(r, k);
      j := -n - e;
    } else {
      j := n - e;
    }
  }

  /** A laid-out numeral neither starts nor ends with white space, so trimming
      leaves it alone. */
  lemma LayoutUntrimmed(sign: string, whole: string, fraction: string)
    requires sign == "" || sign == "-"
    requires |whole| > 0 && AllDigits(whole) && AllDigits(fraction)
    ensures TrimStart(Layout(sign, whole, fraction)) == Layout(sign, whole, fraction)
    ensures TrimEnd(Layout(sign, whole, fraction)) == Layout(sign, whole, fraction)
  {
    var s := Layout(sign, whole, fraction);
    assert s[0] == (if sign == "" then whole[0] else '-');
    assert !IsSpace(s[0]);
    assert s[|s| - 1] == (if |fraction| == 0 then whole[|whole| - 1] else fraction[|fraction| - 1]);
    assert !IsSpace(s[|s| - 1]);
  }

  /** A numeral without exponent denotes its sign applied to whole plus fraction. */
  lemma PlainValue(negative: bool, whole: string, fraction: string)
    requires AllDigits(whole) && AllDigits(fraction) && |whole| > 0
    ensures Numeral(negative, whole, fraction, false, "").Value()
      == var m := WholeValue(whole) as real + FractionValue(fraction); if negative then -m else m
  {
    assert Pow10(WholeValue("")) == 1;
  }

  /** Text that is exactly one numeral, with nothing to trim, reads as that
      numeral's value through both `parseFloat` and `Number`. */
  lemma ReadsBack(s: string, num: Numeral)
    requires s != "" && TrimStart(s) == s && TrimEnd(s) == s
    requires Scan(s) == Some(Scanned(num, |s|))
    ensures ParseFloat(s) == Some(num.Value())
    ensures ToNumber(s) == Some(num.Value())
  {
    assert Trim(s) == s;
  }

  /** The fractional digits `Show` writes for an amount with at most `k`
      decimal places denote its fractional part exactly. */
  lemma ShownFraction(r: real, k: nat, n: int)
    requires k <= MaxFractionDigits && Shifted(r, k) == n as real
    requires FractionPart(r) != 0.0
    ensures FractionValue(FractionDigits(FractionPart(r), MaxFractionDigits)) == FractionPart(r)
  {
    var j := FractionPartScaled(r, k, n);
    FractionDigitsRoundTrip(FractionPart(r), k, j, MaxFractionDigits);
  }

  lemma ShowIsLayout(r: real)
    ensures Show(r) == Layout(if r < 0.0 then "-" else "", ShowNat(WholePart(r)),
      if FractionPart(r) == 0.0 then "" else FractionDigits(FractionPart(r), MaxFractionDigits))
  {
  }

  /** Laid-out numeral text reads back as the value of its parts. */
  lemma LayoutRoundTrip(sign: string, whole: string, fraction: string)
    requires sign == "" || sign == "-"
    requires |whole| > 0 && AllDigits(whole) && AllDigits(fraction)
    ensures ParseFloat(Layout(sign, whole, fraction)) == Some(Numeral(sign == "-", whole, fraction, false, "").Value())
    ensures ToNumber(Layout(sign, whole, fraction)) == Some(Numeral(sign == "-", whole, fraction, false, "").Value())
  {
    ScanPlain(sign, whole, fraction);
    LayoutUntrimmed(sign, whole, fraction);
    ReadsBack(Layout(sign, whole, fraction), Numeral(sign == "-", whole, fraction, false, ""));
  }

  /** `Show` reads back as the amount whenever its fractional digits denote
      the fractional part exactly. */
  lemma ShowReadsBack(r: real)
    requires FractionPart(r) == 0.0 || FractionValue(FractionDigits(FractionPart(r), MaxFractionDigits)) == FractionPart(r)
    ensures ParseFloat(Show(r)) == Some(r)
    ensures ToNumber(Show(r)) == Some(r)
  {
    var sign := if r < 0.0 then "-" else "";
    var w := ShowNat(WholePart(r));
    var frac := FractionPart(r);
    var fd := if frac == 0.0 then "" else FractionDigits(frac, MaxFractionDigits);
    assert FractionValue(fd) == frac;
    PlainValue(r < 0.0, w, fd);
    var m := WholeValue(w) as real + FractionValue(fd);
    assert m == Magnitude(r);
    assert Numeral(r < 0.0, w, fd, false, "").Value() == r;
    LayoutRoundTrip(sign, w, fd);
    ShowIsLayout(r);
  }

  /** An amount with at most twenty decimal places, written out by `Show`,
      reads back as itself through both `parseFloat` and `Number`. */
  lemma ShowRoundTrip(r: real, k: nat, n: int)
    requires k <= MaxFractionDigits && Shifted(r, k) == n as real
    ensures ParseFloat(Show(r)) == Some(r)
    ensures ToNumber(Show(r)) == Some(r)
  {
    if FractionPart(r) != 0.0 {
      ShownFraction(r, k, n);
    }
    ShowReadsBack(r);
  }
}
