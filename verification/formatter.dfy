/** The price formatter (`fillWithZeros`): a number whose decimal text has
    at most seven fraction digits is shown with exactly seven; any other
    number is passed through. */
module Formatter {
  import opened Frames
  import opened Seqs

  /** The position of the first occurrence of c in s. */
  function IndexOf(s: string, c: char): (i: nat)
    requires c in s
    ensures i < |s| && s[i] == c && c !in s[..i]
  {
    if s[0] == c then 0 else 1 + IndexOf(s[1..], c)
  }

  /** JavaScript's `split` on a one-character separator. */
  function Split(s: string, c: char): (parts: seq<string>)
    ensures |parts| >= 1
    ensures forall k :: 0 <= k < |parts| ==> c !in parts[k]
    decreases |s|
  {
    if c !in s then [s]
    else
      var i := IndexOf(s, c);
      [s[..i]] + Split(s[i + 1..], c)
  }

  /** The inverse of Split: the parts glued back with the separator. */
  function Join(parts: seq<string>, c: char): string
    requires |parts| >= 1
  {
    if |parts| == 1 then parts[0] else parts[0] + [c] + Join(parts[1..], c)
  }

  /** Splitting and joining again gives back the text. */
  lemma {:induction false} JoinSplit(s: string, c: char)
    ensures Join(Split(s, c), c) == s
    decreases |s|
  {
    if c in s {
      var i := IndexOf(s, c);
      JoinSplit(s[i + 1..], c);
      JoinCons(s[..i], Split(s[i + 1..], c), c);
      assert s == s[..i] + [c] + s[i + 1..];
    }
  }

  lemma JoinCons(p: string, rest: seq<string>, c: char)
    requires |rest| >= 1
    ensures Join([p] + rest, c) == p + [c] + Join(rest, c)
  {
    assert ([p] + rest)[1..] == rest;
  }

  /** Text without the separator splits into itself alone. */
  lemma SplitNone(a: string, c: char)
    requires c !in a
    ensures Split(a, c) == [a]
  {
  }

  /** Text with exactly one separator splits into the two sides. */
  lemma SplitOnce(a: string, b: string, c: char)
    requires c !in a && c !in b
    ensures Split(a + [c] + b, c) == [a, b]
  {
    var s := a + [c] + b;
    assert s[|a|] == c;
    var i := IndexOf(s, c);
    assert i == |a| by {
      assert forall k :: 0 <= k < |a| ==> s[k] == a[k];
      assert s[..i][..] == s[..i];
    }
    assert s[..i] == a;
    assert s[i + 1..] == b;
    SplitNone(b, c);
  }

  predicate IsDigit(ch: char) {
    '0' <= ch <= '9'
  }

  predicate AllDigits(s: string) {
    forall k :: 0 <= k < |s| ==> IsDigit(s[k])
  }

  lemma DigitsHaveNoPoint(s: string)
    requires AllDigits(s)
    ensures '.' !in s
  {
  }

  /** A finite number in plain decimal notation: a sign, the whole digits
      and the fraction digits (empty when the number is whole). */
  datatype Numeral = Numeral(negative: bool, whole: string, fraction: string)

  predicate Valid(n: Numeral) {
    |n.whole| > 0 && AllDigits(n.whole) && AllDigits(n.fraction)
  }

  /** ECMAScript's Number::toString writes a number without an exponent
      only when its magnitude is below 10^21, so with at most 21 whole
      digits, and not below 10^-6, so with at most five zeros between the
      point of "0." and the first significant digit. */
  const MaxWholeDigits: nat := 21
  const MaxLeadingZeros: nat := 5

  /** A whole part as `String` writes it: no leading zero except in "0". */
  predicate CanonicalWhole(w: string) {
    |w| > 0 && AllDigits(w) && (w[0] == '0' ==> w == "0")
  }

  /** A fraction as `String` writes it: no trailing zero. */
  predicate CanonicalFraction(f: string) {
    AllDigits(f) && (f != [] ==> f[|f| - 1] != '0')
  }

  /** The numerals that `String(value)` produces for a number: canonical
      digits, no negative zero, and a magnitude that is written without an
      exponent. */
  predicate Printed(n: Numeral) {
    && CanonicalWhole(n.whole)
    && CanonicalFraction(n.fraction)
    && |n.whole| <= MaxWholeDigits
    && !(n.whole == "0" && |n.fraction| > MaxLeadingZeros
         && n.fraction[..MaxLeadingZeros + 1] == Zeros(MaxLeadingZeros + 1))
    && !(n.negative && n.whole == "0" && n.fraction == [])
  }

  /** `String(value)`: the fraction is written after a point only when it
      is not empty. */
  function Text(n: Numeral): string {
    (if n.negative then "-" else "")
      + n.whole
      + (if n.fraction == [] then "" else "." + n.fraction)
  }

  /** `String(value).split('.')[1] || '0'`. */
  function FractionPart(s: string): string {
    var parts := Split(s, '.');
    if |parts| > 1 && parts[1] != [] then parts[1] else "0"
  }

  /** The fraction read back from the text of a numeral is its fraction
      digits, or "0" when it has none. */
  lemma FractionOfText(n: Numeral)
    requires Valid(n)
    ensures FractionPart(Text(n)) == if n.fraction == [] then "0" else n.fraction
  {
    var sign: string := if n.negative then "-" else "";
    DigitsHaveNoPoint(n.whole);
    assert '.' !in sign + n.whole;
    if n.fraction == [] {
      assert Text(n) == sign + n.whole;
      SplitNone(sign + n.whole, '.');
    } else {
      DigitsHaveNoPoint(n.fraction);
      assert Text(n) == (sign + n.whole) + ['.'] + n.fraction;
      SplitOnce(sign + n.whole, n.fraction, '.');
    }
  }

  function Zeros(k: nat): (z: string)
    ensures |z| == k && forall i :: 0 <= i < k ==> z[i] == '0'
  {
    if k == 0 then "" else Zeros(k - 1) + "0"
  }

  /** `value.toFixed(7)` for a printed number with at most seven fraction
      digits: below 10^21 toFixed writes fixed-point text, and padding the
      fraction with zeros is exact. */
  function ToFixed(n: Numeral): (fixed: Numeral)
    requires Printed(n) && |n.fraction| <= ZerosNumber
    ensures Valid(fixed) && |fixed.fraction| == ZerosNumber
    ensures fixed.negative == n.negative && fixed.whole == n.whole
    ensures fixed.fraction[..|n.fraction|] == n.fraction
    ensures forall i :: |n.fraction| <= i < ZerosNumber ==> fixed.fraction[i] == '0'
  {
    Numeral(n.negative, n.whole, n.fraction + Zeros(ZerosNumber - |n.fraction|))
  }

  /** What the formatter hands back: fixed-point text, or the number
      itself. */
  datatype Shown = Fixed(text: string) | Raw(number: Numeral)

  function FillWithZeros(value: Numeral): (shown: Shown)
    requires Printed(value)
    ensures shown.Fixed? <==> |value.fraction| <= ZerosNumber
    ensures shown.Raw? ==> shown.number == value
  {
    var fractionNumber := FractionPart(Text(value));
    FractionOfText(value);
    if |fractionNumber| <= ZerosNumber then Fixed(Text(ToFixed(value))) else Raw(value)
  }

  /** The text of the padded numeral extends the original text. */
  lemma ToFixedText(value: Numeral)
    requires Printed(value) && |value.fraction| <= ZerosNumber
    ensures Text(ToFixed(value))
      == Text(value) + (if value.fraction == [] then "." else "")
         + Zeros(ZerosNumber - |value.fraction|)
  {
    var sign: string := if value.negative then "-" else "";
    var pad := Zeros(ZerosNumber - |value.fraction|);
    var head := sign + value.whole;
    assert Text(ToFixed(value)) == head + ("." + (value.fraction + pad));
    if value.fraction == [] {
      assert Text(value) == head;
      assert value.fraction + pad == pad;
      AppendAssoc(head, ".", pad);
    } else {
      assert Text(value) + "" == head + ("." + value.fraction);
      AppendAssoc(".", value.fraction, pad);
      AppendAssoc(head, "." + value.fraction, pad);
    }
  }

  /** The fixed text is the number's own text followed by a point, when it
      had none, and the zeros that bring the fraction to seven digits. */
  lemma FillWithZerosText(value: Numeral)
    requires Printed(value) && |value.fraction| <= ZerosNumber
    ensures FillWithZeros(value)
      == Fixed(Text(value) + (if value.fraction == [] then "." else "")
               + Zeros(ZerosNumber - |value.fraction|))
    ensures |FractionPart(FillWithZeros(value).text)| == ZerosNumber
  {
    ToFixedText(value);
    FractionOfText(ToFixed(value));
  }

  function Pow10(k: nat): (p: nat)
    ensures p >= 1
  {
    if k == 0 then 1 else 10 * Pow10(k - 1)
  }

  function DigitValue(ch: char): (d: nat)
    requires IsDigit(ch)
    ensures d < 10
  {
    ch as int - '0' as int
  }

  /** The value of a digit string read as a whole number; it has no more
      digits than the string. */
  function DigitsValue(s: string): (v: nat)
    requires AllDigits(s)
    ensures v < Pow10(|s|)
  {
    if s == [] then 0
    else 10 * DigitsValue(s[..|s| - 1]) + DigitValue(s[|s| - 1])
  }

  /** The fraction digits read as a value below one. */
  function FractionValue(f: string): (v: real)
    requires AllDigits(f)
    ensures 0.0 <= v < 1.0
  {
    RatioBelowOne(DigitsValue(f), Pow10(|f|));
    DigitsValue(f) as real / Pow10(|f|) as real
  }

  lemma RatioBelowOne(d: nat, p: nat)
    requires d < p
    ensures 0.0 <= d as real / p as real < 1.0
  {
  }

  /** The magnitude a numeral denotes. */
  function Magnitude(n: Numeral): (m: real)
    requires Valid(n)
    ensures m >= 0.0
  {
    DigitsValue(n.whole) as real + FractionValue(n.fraction)
  }

  /** The number a numeral denotes. */
  function Value(n: Numeral): real
    requires Valid(n)
  {
    if n.negative then -Magnitude(n) else Magnitude(n)
  }

  /** One trailing zero multiplies the digits by ten. */
  lemma DigitsValueZero(s: string)
    requires AllDigits(s)
    ensures AllDigits(s + "0") && DigitsValue(s + "0") == 10 * DigitsValue(s)
  {
    assert (s + "0")[..|s|] == s;
  }

  lemma FractionValueZero(f: string)
    requires AllDigits(f)
    ensures AllDigits(f + "0") && FractionValue(f + "0") == FractionValue(f)
  {
    DigitsValueZero(f);
    assert Pow10(|f + "0"|) == 10 * Pow10(|f|);
    ScaleRatio(DigitsValue(f), Pow10(|f|));
  }

  /** Scaling numerator and denominator by ten keeps a ratio. */
  lemma ScaleRatio(d: nat, p: nat)
    requires p > 0
    ensures (10 * d) as real / (10 * p) as real == d as real / p as real
  {
  }

  lemma RatioPositive(d: nat, p: nat)
    requires d > 0 && p > 0
    ensures d as real / p as real > 0.0
  {
  }

  /** Trailing zeros in the fraction do not change the value. */
  lemma {:induction false} PadKeepsFraction(f: string, k: nat)
    requires AllDigits(f)
    ensures AllDigits(f + Zeros(k)) && FractionValue(f + Zeros(k)) == FractionValue(f)
  {
    if k == 0 {
      assert f + Zeros(0) == f;
    } else {
      PadKeepsFraction(f, k - 1);
      assert (f + Zeros(k - 1)) + "0" == f + Zeros(k);
      FractionValueZero(f + Zeros(k - 1));
    }
  }

  /** Padding to seven digits preserves the number shown. */
  lemma ToFixedKeepsValue(n: Numeral)
    requires Printed(n) && |n.fraction| <= ZerosNumber
    ensures Value(ToFixed(n)) == Value(n)
  {
    PadKeepsFraction(n.fraction, ZerosNumber - |n.fraction|);
  }

  lemma {:induction false} Pow10Monotone(i: nat, j: nat)
    ensures i <= j ==> Pow10(i) <= Pow10(j)
    decreases j
  {
    if i < j {
      Pow10Monotone(i, j - 1);
    }
  }

  lemma {:induction false} Pow10Add(i: nat, j: nat)
    ensures Pow10(i + j) == Pow10(i) * Pow10(j)
    decreases j
  {
    if j > 0 {
      Pow10Add(i, j - 1);
      assert Pow10(i + j) == 10 * Pow10(i + (j - 1));
      assert Pow10(i) * Pow10(j) == 10 * (Pow10(i) * Pow10(j - 1));
    }
  }

  /** A digit string that does not start with zero has exactly as many
      digits as its value. */
  lemma {:induction false} LeadingDigit(s: string)
    requires |s| > 0 && AllDigits(s) && s[0] != '0'
    ensures Pow10(|s| - 1) <= DigitsValue(s)
    decreases |s|
  {
    if |s| > 1 {
      var init := s[..|s| - 1];
      assert init[0] == s[0];
      LeadingDigit(init);
    }
  }

  /** The last digit of a string is its value modulo ten. */
  lemma LastDigit(s: string)
    requires |s| > 0 && AllDigits(s)
    ensures DigitsValue(s) % 10 == DigitValue(s[|s| - 1])
    ensures DigitsValue(s) / 10 == DigitsValue(s[..|s| - 1])
  {
  }

  /** Digit strings of one length are told apart by their values. */
  lemma {:induction false} SameLengthDigits(a: string, b: string)
    requires AllDigits(a) && AllDigits(b) && |a| == |b|
    requires DigitsValue(a) == DigitsValue(b)
    ensures a == b
    decreases |a|
  {
    if |a| > 0 {
      var n := |a| - 1;
      LastDigit(a);
      LastDigit(b);
      SameLengthDigits(a[..n], b[..n]);
      assert a == a[..n] + [a[n]];
      assert b == b[..n] + [b[n]];
    }
  }

  /** A canonical whole part is "0" exactly when its value is zero. */
  lemma WholeZero(w: string)
    requires CanonicalWhole(w)
    ensures DigitsValue(w) == 0 <==> w == "0"
  {
    if w != "0" {
      LeadingDigit(w);
    }
  }

  /** Canonical whole parts are told apart by their values. */
  lemma WholeUnique(a: string, b: string)
    requires CanonicalWhole(a) && CanonicalWhole(b)
    requires DigitsValue(a) == DigitsValue(b)
    ensures a == b
  {
    WholeZero(a);
    WholeZero(b);
    if a != "0" {
      LeadingDigit(a);
      LeadingDigit(b);
      Pow10Monotone(|a|, |b| - 1);
      Pow10Monotone(|b|, |a| - 1);
      assert |a| == |b|;
      SameLengthDigits(a, b);
    }
  }

  /** Equal ratios over positive denominators cross-multiply. */
  lemma CrossMultiply(d: nat, p: nat, e: nat, q: nat)
    requires p > 0 && q > 0
    requires d as real / p as real == e as real / q as real
    ensures d * q == e * p
  {
    var x := d as real / p as real;
    assert d as real == x * p as real;
    assert e as real == x * q as real;
    assert (d * q) as real == d as real * q as real;
    assert (e * p) as real == e as real * p as real;
  }

  lemma Cancel(x: nat, y: nat, p: nat)
    requires p > 0 && x * p == y * p
    ensures x == y
  {
    assert (x - y) * p == 0;
  }

  /** If e·p == d·(p·r) and r is a positive power of ten, e is a multiple
      of ten. */
  lemma ScaledByTen(d: nat, e: nat, p: nat, r: nat, r1: nat)
    requires p > 0 && r == 10 * r1
    requires d * (p * r) == e * p
    ensures e % 10 == 0
  {
    assert (d * r) * p == e * p;
    Cancel(d * r, e, p);
    assert e == 10 * (d * r1);
  }

  /** If a shorter fraction has the value of a longer one, the longer one's
      digits are those of the shorter followed by zeros, so its value is a
      multiple of ten. */
  lemma LongerIsScaled(f: string, g: string)
    requires AllDigits(f) && AllDigits(g) && |f| < |g|
    requires FractionValue(f) == FractionValue(g)
    ensures DigitsValue(g) % 10 == 0
  {
    var k := |g| - |f|;
    CrossMultiply(DigitsValue(f), Pow10(|f|), DigitsValue(g), Pow10(|g|));
    Pow10Add(|f|, k);
    assert |f| + k == |g|;
    ScaledByTen(DigitsValue(f), DigitsValue(g), Pow10(|f|), Pow10(k), Pow10(k - 1));
  }

  /** Canonical fractions are told apart by their values. */
  lemma FractionUnique(f: string, g: string)
    requires CanonicalFraction(f) && CanonicalFraction(g)
    requires FractionValue(f) == FractionValue(g)
    ensures f == g
  {
    if |f| < |g| {
      LongerIsScaled(f, g);
      LastDigit(g);
    } else if |g| < |f| {
      LongerIsScaled(g, f);
      LastDigit(f);
    } else {
      var p := Pow10(|f|);
      CrossMultiply(DigitsValue(f), p, DigitsValue(g), p);
      Cancel(DigitsValue(f), DigitsValue(g), p);
      SameLengthDigits(f, g);
    }
  }

  /** A printed numeral other than "0" denotes a number other than zero. */
  lemma PositiveMagnitude(n: Numeral)
    requires Printed(n) && !(n.whole == "0" && n.fraction == [])
    ensures Magnitude(n) > 0.0
  {
    if n.whole != "0" {
      WholeZero(n.whole);
    } else {
      LastDigit(n.fraction);
      RatioPositive(DigitsValue(n.fraction), Pow10(|n.fraction|));
    }
  }

  /** A printed numeral is negative exactly when its number is. */
  lemma PrintedSign(n: Numeral)
    requires Printed(n)
    ensures n.negative <==> Value(n) < 0.0
  {
    if n.negative {
      PositiveMagnitude(n);
    }
  }

  /** Two printed numerals of the same number are the same numeral: the
      text `String` writes is determined by the number. */
  lemma PrintedUnique(m: Numeral, n: Numeral)
    requires Printed(m) && Printed(n)
    requires Value(m) == Value(n)
    ensures m == n
  {
    PrintedSign(m);
    PrintedSign(n);
    var a, b := DigitsValue(m.whole), DigitsValue(n.whole);
    var f, g := FractionValue(m.fraction), FractionValue(n.fraction);
    assert a as real + f == b as real + g;
    assert a == b;
    WholeUnique(m.whole, n.whole);
    FractionUnique(m.fraction, n.fraction);
  }

  /** Formatting is idempotent on what it shows: the fixed text denotes the
      same number, and whichever numeral `String` writes for that number is
      formatted to the same text again. */
  lemma FillWithZerosIdempotent(n: Numeral)
    requires Printed(n) && |n.fraction| <= ZerosNumber
    ensures Value(ToFixed(n)) == Value(n)
    ensures forall m :: Printed(m) && Value(m) == Value(ToFixed(n)) ==>
      FillWithZeros(m) == FillWithZeros(n) == Fixed(Text(ToFixed(n)))
  {
    ToFixedKeepsValue(n);
    forall m | Printed(m) && Value(m) == Value(ToFixed(n))
      ensures FillWithZeros(m) == FillWithZeros(n) == Fixed(Text(ToFixed(n)))
    {
      PrintedUnique(m, n);
    }
  }

  /** Seven zeros, and six. */
  lemma ZerosSmall()
    ensures Zeros(6) == "000000" && Zeros(7) == "0000000"
  {
    assert Zeros(1) == "0";
    assert Zeros(2) == "00";
    assert Zeros(3) == "000";
    assert Zeros(4) == "0000";
    assert Zeros(5) == "00000";
  }

  /** `fillWithZeros`'s own example: 1.4 is shown as 1.4000000. */
  lemma FillWithZerosExampleFraction(x: Numeral)
    requires x == Numeral(false, "1", "4")
    ensures FillWithZeros(x) == Fixed("1.4000000")
  {
    assert Text(x) + "" + Zeros(6) == "1.4000000" by {
      ZerosSmall();
      assert Text(x) == "1.4";
    }
    FillWithZerosText(x);
  }

  /** A whole number gains a point and seven zeros. */
  lemma FillWithZerosExampleWhole(y: Numeral)
    requires y == Numeral(false, "3", "")
    ensures FillWithZeros(y) == Fixed("3.0000000")
  {
    assert Text(y) + "." + Zeros(7) == "3.0000000" by {
      ZerosSmall();
      assert Text(y) == "3";
    }
    FillWithZerosText(y);
  }

  /** 0.12345678, written by `String` with eight fraction digits, is passed
      through. */
  lemma FillWithZerosExampleLong(z: Numeral)
    requires z == Numeral(false, "0", "12345678")
    ensures Printed(z) && FillWithZeros(z) == Raw(z)
  {
    ZerosSmall();
    assert z.fraction[..6][0] == '1';
  }

  /** 10^-7 is not among the printed numerals: `String` writes it as
      "1e-7". */
  lemma TinyNotPrinted(t: Numeral)
    requires t == Numeral(false, "0", "0000001")
    ensures !Printed(t)
  {
    ZerosSmall();
    assert t.fraction[..6] == "000000";
  }
}
