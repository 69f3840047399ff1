/** Decimal numbers as the forms type them.

    The forms keep amounts as text and turn them into numbers with Rust's
    `str::parse::<f64>()`; items turn numbers back into text with `f64::to_string`.
    Money is modelled as an exact `real`, so this module gives both directions on
    decimals:
    - `ParseDecimal` accepts an optional sign followed by digits with at most one
      decimal point and at least one digit (`"12"`, `"-0.5"`, `"5."`, `".5"`) and
      rejects everything else, including surrounding whitespace;
    - `FormatNumber` writes the decimal expansion with no exponent and no trailing
      fractional zeros, as `f64`'s `Display` does for finite values.

    Powers of ten are applied by repeated multiplication or division by the constant
    ten (`Shift`, `ScaleUp`, `ScaleDown`), which keeps the arithmetic linear. */
module Numbers {
  import opened Wrappers
  import Text

  /** The most fractional digits a value may need (an `f64` is a multiple of 2^-1074,
      so its expansion never needs more). */
  const MaxScale: nat := 1074

  /** The product of two amounts. Totals that multiply running values by factors
      state their closed forms with `Times`, so that a product is a term of its own. */
  function Times(a: real, b: real): real {
    a * b
  }

  /** `m * 10^k` on naturals: `m` followed by `k` zero digits. */
  function Shift(m: nat, k: nat): nat {
    if k == 0 then m else 10 * Shift(m, k - 1)
  }

  /** `x * 10^k`. */
  function ScaleUp(x: real, k: nat): real {
    if k == 0 then x else ScaleUp(x, k - 1) * 10.0
  }

  /** `x / 10^k`. */
  function ScaleDown(x: real, k: nat): (r: real)
    ensures x >= 0.0 ==> r >= 0.0
  {
    if k == 0 then x else ScaleDown(x, k - 1) / 10.0
  }

  predicate IsDigit(c: char) {
    '0' <= c <= '9'
  }

  function DigitValue(c: char): nat
    requires IsDigit(c)
  {
    c as int - '0' as int
  }

  function DigitChar(d: nat): (c: char)
    requires d < 10
    ensures IsDigit(c) && DigitValue(c) == d
  {
    ('0' as int + d) as char
  }

  predicate AllDigits(s: string) {
    forall i :: 0 <= i < |s| ==> IsDigit(s[i])
  }

  /** The number a run of decimal digits denotes (most significant first). */
  function DigitsValue(s: string): nat
    requires AllDigits(s)
  {
    if |s| == 0 then 0 else 10 * DigitsValue(s[..|s| - 1]) + DigitValue(s[|s| - 1])
  }

  lemma AllDigitsAppend(a: string, b: string)
    requires AllDigits(a) && AllDigits(b)
    ensures AllDigits(a + b)
  {
    forall i | 0 <= i < |a + b| ensures IsDigit((a + b)[i]) {
      if i < |a| { assert (a + b)[i] == a[i]; } else { assert (a + b)[i] == b[i - |a|]; }
    }
  }

  /** Writing `b` after `a` shifts `a`'s value left by `|b|` digits. */
  lemma {:induction false} DigitsValueAppend(a: string, b: string)
    requires AllDigits(a) && AllDigits(b)
    ensures AllDigits(a + b)
    ensures DigitsValue(a + b) == Shift(DigitsValue(a), |b|) + DigitsValue(b)
    decreases |b|
  {
    AllDigitsAppend(a, b);
    if |b| == 0 {
      assert a + b == a;
    } else {
      var b' := b[..|b| - 1];
      assert (a + b)[..|a + b| - 1] == a + b';
      assert (a + b)[|a + b| - 1] == b[|b| - 1];
      DigitsValueAppend(a, b');
    }
  }

  /** The decimal digits of `n`, without leading zeros ("0" for zero). */
  function NatToDigits(n: nat): (s: string)
    ensures |s| > 0 && AllDigits(s)
    ensures DigitsValue(s) == n
  {
    if n < 10 then
      var s := [DigitChar(n)];
      assert s[..0] == [];
      s
    else
      var p := NatToDigits(n / 10);
      var s := p + [DigitChar(n % 10)];
      assert s[..|s| - 1] == p;
      s
  }

  function Zeros(n: nat): (s: string)
    ensures |s| == n && AllDigits(s)
  {
    if n == 0 then "" else Zeros(n - 1) + "0"
  }

  lemma {:induction false} ZerosValue(n: nat)
    ensures DigitsValue(Zeros(n)) == 0
  {
    if n > 0 {
      assert Zeros(n)[..n - 1] == Zeros(n - 1);
      ZerosValue(n - 1);
    }
  }

  lemma {:induction false} ShiftZero(k: nat)
    ensures Shift(0, k) == 0
  {
    if k > 0 {
      ShiftZero(k - 1);
    }
  }

  /** `s` left-padded with zeros to at least `width` characters. */
  function PadLeft(s: string, width: nat): (r: string)
    requires AllDigits(s)
    ensures AllDigits(r) && |r| == if |s| < width then width else |s|
    ensures DigitsValue(r) == DigitsValue(s)
    ensures |s| >= width ==> r == s
  {
    var z := Zeros(if |s| < width then width - |s| else 0);
    assert |s| >= width ==> z + s == s;
    ZerosValue(|z|);
    ShiftZero(|s|);
    DigitsValueAppend(z, s);
    z + s
  }

  /** What a left-to-right reading of a numeral has seen so far: the digits read as
      one whole number, how many of them follow the point, whether the point has been
      seen, and how many digits there were in all. */
  datatype Scan = Scan(mantissa: nat, fracDigits: nat, seenPoint: bool, digits: nat)

  /** Reads digits with at most one point; `None` at the first other character. */
  function ScanNumeral(s: string): Option<Scan>
  {
    if |s| == 0 then Some(Scan(0, 0, false, 0))
    else match ScanNumeral(s[..|s| - 1])
      case None => None
      case Some(st) =>
        var c := s[|s| - 1];
        if IsDigit(c) then
          Some(Scan(10 * st.mantissa + DigitValue(c),
                    if st.seenPoint then st.fracDigits + 1 else st.fracDigits,
                    st.seenPoint, st.digits + 1))
        else if c == '.' && !st.seenPoint then Some(st.(seenPoint := true))
        else None
  }

  /** Digits, optionally one point, more digits; at least one digit overall. */
  function ParseUnsigned(s: string): (r: Option<real>)
    ensures r.Some? ==> r.value >= 0.0
  {
    match ScanNumeral(s)
    case Some(st) =>
      if st.digits > 0 then Some(ScaleDown(st.mantissa as real, st.fracDigits)) else None
    case None => None
  }

  /** `str::parse::<f64>()` on decimal text: `None` stands for the `Err` case. */
  function ParseDecimal(s: string): Option<real> {
    if |s| > 0 && s[0] == '-' then
      match ParseUnsigned(s[1..])
      case None => None
      case Some(v) => Some(-v)
    else if |s| > 0 && s[0] == '+' then ParseUnsigned(s[1..])
    else ParseUnsigned(s)
  }

  /** `parse::<f64>().unwrap_or(0.0)`. */
  function ParseOrZero(s: string): real {
    ParseDecimal(s).UnwrapOr(0.0)
  }

  /** The text of `m / 10^k` with exactly `k` digits after the point (none when `k` is 0). */
  function FormatScaled(m: int, k: nat): string {
    var body := ScaledBody(if m < 0 then -m else m, k);
    if m < 0 then "-" + body else body
  }

  /** The unsigned part of `FormatScaled`: the digits of `n`, padded to more than `k`
      digits, with a point before the last `k`. */
  function ScaledBody(n: nat, k: nat): string {
    PointAt(PadLeft(NatToDigits(n), k + 1), k)
  }

  /** `d` with a point inserted before its last `k` characters (none when `k` is 0). */
  function PointAt(d: string, k: nat): string
    requires |d| > k
  {
    if k == 0 then d else d[..|d| - k] + "." + d[|d| - k..]
  }

  /** `x * 10^k` is a whole number. */
  predicate ScaledIntegral(x: real, k: nat) {
    ScaleUp(x, k).Floor as real == ScaleUp(x, k)
  }

  /** The values the model's numbers range over: decimals with at most `MaxScale`
      fractional digits. */
  predicate IsFiniteDecimal(x: real) {
    exists k :: 0 <= k <= MaxScale && ScaledIntegral(x, k)
  }

  /** The least scale at least `k` at which `x` becomes whole. */
  function FindScale(x: real, k: nat): (res: Option<nat>)
    requires k <= MaxScale
    ensures res.Some? ==> k <= res.value <= MaxScale && ScaledIntegral(x, res.value)
    decreases MaxScale - k
  {
    if ScaledIntegral(x, k) then Some(k)
    else if k == MaxScale then None
    else FindScale(x, k + 1)
  }

  /** The search succeeds whenever some scale in range works. */
  lemma {:induction false} FindScaleFinds(x: real, k: nat, j: nat)
    requires k <= j <= MaxScale && ScaledIntegral(x, j)
    ensures FindScale(x, k).Some?
    decreases j - k
  {
    if !ScaledIntegral(x, k) {
      FindScaleFinds(x, k + 1, j);
    }
  }

  /** `f64::to_string`: the shortest decimal text of the value, which for an exact
      decimal is the decimal itself. Values with longer expansions are cut after
      `MaxScale` digits. */
  function FormatNumber(x: real): string {
    match FindScale(x, 0)
    case Some(k) => FormatScaled(ScaleUp(x, k).Floor, k)
    case None => FormatScaled(ScaleUp(x, MaxScale).Floor, MaxScale)
  }

  lemma {:induction false} DigitsLength(n: nat, k: nat)
    requires k >= 1 && n < Shift(1, k)
    ensures |NatToDigits(n)| <= k
  {
    if n >= 10 {
      assert Shift(1, 1) == 10;
      assert k >= 2;
      DigitsLength(n / 10, k - 1);
    }
  }

  lemma {:induction false} ScaleDownUp(x: real, k: nat)
    ensures ScaleDown(ScaleUp(x, k), k) == x
  {
    if k > 0 {
      ScaleDownShift(ScaleUp(x, k - 1), k - 1);
      ScaleDownUp(x, k - 1);
    }
  }

  /** Scaling down by `k + 1` is scaling `x / 10` down by `k`. */
  lemma {:induction false} ScaleDownShift(x: real, k: nat)
    ensures ScaleDown(x * 10.0, k + 1) == ScaleDown(x, k)
  {
    if k > 0 {
      ScaleDownShift(x, k - 1);
    }
  }

  lemma {:induction false} ScaleDownNeg(x: real, k: nat)
    ensures ScaleDown(-x, k) == -ScaleDown(x, k)
  {
    if k > 0 {
      ScaleDownNeg(x, k - 1);
    }
  }

  /** Reading more digits shifts the mantissa left and counts them. */
  lemma {:induction false} ScanAppendDigits(s: string, ds: string)
    requires ScanNumeral(s).Some? && AllDigits(ds)
    ensures ScanNumeral(s + ds).Some?
    ensures var st := ScanNumeral(s).value;
      ScanNumeral(s + ds).value
        == Scan(Shift(st.mantissa, |ds|) + DigitsValue(ds),
                st.fracDigits + (if st.seenPoint then |ds| else 0),
                st.seenPoint, st.digits + |ds|)
    decreases |ds|
  {
    if |ds| == 0 {
      assert s + ds == s;
    } else {
      var ds' := ds[..|ds| - 1];
      assert (s + ds)[..|s + ds| - 1] == s + ds';
      assert (s + ds)[|s + ds| - 1] == ds[|ds| - 1];
      ScanAppendDigits(s, ds');
    }
  }

  /** A first point is recorded and nothing else changes. */
  lemma ScanAppendPoint(s: string)
    requires ScanNumeral(s).Some? && !ScanNumeral(s).value.seenPoint
    ensures ScanNumeral(s + ".") == Some(ScanNumeral(s).value.(seenPoint := true))
  {
    var t := s + ".";
    assert t[..|t| - 1] == s;
  }

  lemma ScanWholeText(ds: string)
    requires AllDigits(ds)
    ensures ScanNumeral(ds) == Some(Scan(DigitsValue(ds), 0, false, |ds|))
  {
    ScanAppendDigits("", ds);
    assert "" + ds == ds;
  }

  /** Digits, a point and digits read as the digits of both runs, the second as fraction. */
  lemma ScanPointText(whole: string, frac: string, body: string)
    requires AllDigits(whole) && AllDigits(frac) && body == whole + "." + frac
    ensures ScanNumeral(body).Some?
    ensures ScanNumeral(body).value.mantissa == Shift(DigitsValue(whole), |frac|) + DigitsValue(frac)
    ensures ScanNumeral(body).value.fracDigits == |frac|
    ensures ScanNumeral(body).value.digits == |whole| + |frac|
  {
    ScanWholeText(whole);
    ScanAppendPoint(whole);
    ScanAppendDigits(whole + ".", frac);
  }

  lemma ScaledBodyParses(n: nat, k: nat)
    ensures |ScaledBody(n, k)| > 0 && IsDigit(ScaledBody(n, k)[0])
    ensures ParseUnsigned(ScaledBody(n, k)) == Some(ScaleDown(n as real, k))
  {
    PointAtParses(PadLeft(NatToDigits(n), k + 1), k);
  }

  /** Digits with a point inserted read as their value scaled down by the digits after it. */
  lemma PointAtParses(d: string, k: nat)
    requires AllDigits(d) && |d| > k
    ensures |PointAt(d, k)| > 0 && IsDigit(PointAt(d, k)[0])
    ensures ParseUnsigned(PointAt(d, k)) == Some(ScaleDown(DigitsValue(d) as real, k))
  {
    if k == 0 {
      ScanWholeText(d);
    } else {
      SplitDigits(d, k);
      ScanPointText(d[..|d| - k], d[|d| - k..], PointAt(d, k));
      assert PointAt(d, k)[0] == d[0];
    }
  }

  /** Cutting a run of digits `k` from its end splits its value accordingly. */
  lemma SplitDigits(d: string, k: nat)
    requires AllDigits(d) && |d| > k
    ensures DigitsValue(d) == Shift(DigitsValue(d[..|d| - k]), k) + DigitsValue(d[|d| - k..])
  {
    var whole := d[..|d| - k];
    var frac := d[|d| - k..];
    assert d == whole + frac;
    DigitsValueAppend(whole, frac);
  }

  /** A leading minus sign negates what the rest reads as. */
  lemma ParseNegated(body: string, v: real)
    requires ParseUnsigned(body) == Some(v)
    ensures ParseDecimal("-" + body) == Some(-v)
  {
    assert ("-" + body)[1..] == body;
  }

  /** Text that starts with a digit reads as an unsigned number. */
  lemma ParseDigitFirst(body: string)
    requires |body| > 0 && IsDigit(body[0])
    ensures ParseDecimal(body) == ParseUnsigned(body)
  {
  }

  /** Parsing what `FormatScaled` writes gives back `m / 10^k`. */
  lemma FormatScaledParses(m: int, k: nat)
    ensures ParseDecimal(FormatScaled(m, k)) == Some(ScaleDown(m as real, k))
  {
    if m < 0 {
      NegativeScaledParses(-m, k);
    } else {
      NonNegativeScaledParses(m, k);
    }
  }

  lemma NonNegativeScaledParses(n: nat, k: nat)
    ensures ParseDecimal(FormatScaled(n, k)) == Some(ScaleDown(n as real, k))
  {
    ScaledBodyParses(n, k);
    ParseDigitFirst(ScaledBody(n, k));
  }

  lemma NegativeScaledParses(n: nat, k: nat)
    requires n > 0
    ensures ParseDecimal(FormatScaled(-(n as int), k)) == Some(ScaleDown(-(n as real), k))
  {
    ScaledBodyParses(n, k);
    ParseNegated(ScaledBody(n, k), ScaleDown(n as real, k));
    ScaleDownNeg(n as real, k);
  }

  /** Round trip: `parse(to_string(x)) == x` for every value the model's numbers take. */
  lemma FormatNumberRoundTrip(x: real)
    requires IsFiniteDecimal(x)
    ensures ParseDecimal(FormatNumber(x)) == Some(x)
  {
    var k0 :| 0 <= k0 <= MaxScale && ScaledIntegral(x, k0);
    FindScaleFinds(x, 0, k0);
    var k := FindScale(x, 0).value;
    var m := ScaleUp(x, k).Floor;
    assert FormatNumber(x) == FormatScaled(m, k);
    FormatScaledParses(m, k);
    ScaleDownUp(x, k);
  }

  /** Whole numbers are written as their plain digits. */
  lemma FormatWholeNumber(n: nat)
    ensures FormatNumber(n as real) == NatToDigits(n)
  {
    assert ScaledIntegral(n as real, 0);
    assert FindScale(n as real, 0) == Some(0);
    assert ScaledBody(n, 0) == NatToDigits(n);
  }

  /** A successful scan that counted digits saw a digit somewhere. */
  lemma {:induction false} ScanSawDigit(s: string)
    requires ScanNumeral(s).Some? && ScanNumeral(s).value.digits > 0
    ensures exists i :: 0 <= i < |s| && IsDigit(s[i])
  {
    var init := s[..|s| - 1];
    if !IsDigit(s[|s| - 1]) {
      ScanSawDigit(init);
      var i :| 0 <= i < |init| && IsDigit(init[i]);
      assert s[i] == init[i];
    }
  }

  /** Whatever parses holds a digit, so empty and blank text never parses. */
  lemma ParsedHasDigit(s: string)
    requires ParseDecimal(s).Some?
    ensures exists i :: 0 <= i < |s| && IsDigit(s[i])
    ensures !Text.IsBlank(s)
  {
    var body := if |s| > 0 && (s[0] == '-' || s[0] == '+') then s[1..] else s;
    assert ParseUnsigned(body).Some?;
    ScanSawDigit(body);
    var i :| 0 <= i < |body| && IsDigit(body[i]);
    if body != s {
      assert s[i + 1] == body[i];
      assert !Text.IsWhitespace(s[i + 1]);
    } else {
      assert !Text.IsWhitespace(s[i]);
    }
  }
}
