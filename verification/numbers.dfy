/** Decimal formatting and parsing as the program uses it: `%d` and the
    zero-padded `%04d` / `%02d` verbs of fmt, and strconv.Atoi on a 64-bit
    platform. */
module Numbers {
  import opened Wrappers

  const MinInt64: int := -0x8000_0000_0000_0000
  const MaxInt64: int := 0x7FFF_FFFF_FFFF_FFFF

  predicate IsDigit(c: char)
  {
    '0' <= c <= '9'
  }

  predicate AllDigits(s: string)
  {
    forall i :: 0 <= i < |s| ==> IsDigit(s[i])
  }

  function DigitChar(d: nat): char
    requires d < 10
  {
    (48 + d) as char
  }

  function DigitValue(c: char): nat
    requires IsDigit(c)
  {
    c as int - 48
  }

  function Pow10(k: nat): nat
  {
    if k == 0 then 1 else 10 * Pow10(k - 1)
  }

  /** The decimal digits of `n` with no leading zero (fmt `%d`, strconv.Itoa). */
  function FormatNat(n: nat): (r: string)
    ensures |r| >= 1 && AllDigits(r)
    ensures |r| > 1 ==> r[0] != '0'
  {
    if n < 10 then [DigitChar(n)] else FormatNat(n / 10) + [DigitChar(n % 10)]
  }

  /** The value of a string of decimal digits; "" reads as 0. */
  function ParseDigits(s: string): nat
    requires AllDigits(s)
  {
    if |s| == 0 then 0 else 10 * ParseDigits(s[..|s| - 1]) + DigitValue(s[|s| - 1])
  }

  function Zeros(k: nat): (r: string)
    ensures |r| == k && AllDigits(r)
  {
    seq(k, _ => '0')
  }

  /** Left-pads a digit string with zeros up to `width` characters. */
  function ZeroPad(s: string, width: nat): (r: string)
    ensures |r| == if |s| >= width then |s| else width
    ensures AllDigits(s) ==> AllDigits(r)
    decreases width - |s|
  {
    if |s| >= width then s else ZeroPad("0" + s, width)
  }

  /** Padding puts exactly the missing number of zeros in front. */
  lemma {:induction false} ZeroPadIsZeros(s: string, width: nat)
    ensures ZeroPad(s, width) == if |s| >= width then s else Zeros(width - |s|) + s
    decreases width - |s|
  {
    if |s| < width {
      ZeroPadIsZeros("0" + s, width);
      if |s| + 1 < width {
        assert Zeros(width - |s| - 1) + ("0" + s) == Zeros(width - |s|) + s;
      } else {
        assert Zeros(1) == "0";
      }
    }
  }

  /** fmt.Sprintf("%0<width>d", n): the sign counts towards the width and
      the zeros go between the sign and the digits. */
  function FormatPadded(n: int, width: nat): (r: string)
    ensures n >= 0 ==> AllDigits(r) && |r| >= width
    ensures n < 0 ==> |r| >= 2 && r[0] == '-' && AllDigits(r[1..])
    ensures |r| >= width
  {
    if n >= 0 then ZeroPad(FormatNat(n), width)
    else "-" + ZeroPad(FormatNat(-n), if width > 0 then width - 1 else 0)
  }

  datatype NumError = ErrSyntax | ErrRange

  const MaxUint64: int := 0xFFFF_FFFF_FFFF_FFFF

  /** Text strconv.Atoi accepts the form of: an optional sign, then at
      least one decimal digit and nothing else. */
  predicate NumberShaped(s: string)
  {
    |s| >= 1 && (AllDigits(s) || ((s[0] == '+' || s[0] == '-') && |s| >= 2 && AllDigits(s[1..])))
  }

  /** The length of the run of digits `s` starts with. */
  function DigitRun(s: string): (k: nat)
    ensures k <= |s| && AllDigits(s[..k])
    ensures k < |s| ==> !IsDigit(s[k])
  {
    if |s| == 0 || !IsDigit(s[0]) then 0
    else
      var k := 1 + DigitRun(s[1..]);
      assert forall i :: 1 <= i < k ==> s[..k][i] == s[1..][..k - 1][i - 1];
      k
  }

  /** strconv.Atoi for a 64-bit int. After an optional sign, ParseUint
      reads the digits left to right and stops with a range error at the
      first digit that takes the value past 2^64 - 1, and with a syntax
      error at the first character that is not a digit, whichever comes
      first; a value that fits 64 unsigned bits but not int64 is a range
      error too. Text shorter than 19 bytes takes Atoi's fast path, which
      gives the same answers because 18 digits cannot get past 2^64 - 1.
      Leading zeros, a '+' and "-0" are all accepted. */
  function Atoi(s: string): (r: Result<int, NumError>)
    ensures r.Ok? ==> MinInt64 <= r.value <= MaxInt64
    ensures |s| <= 20 ==> (r == Err(ErrSyntax) <==> !NumberShaped(s))
    ensures !NumberShaped(s) ==> r == Err(ErrSyntax) || r == Err(ErrRange)
    ensures |s| >= 1 && AllDigits(s) ==>
      r == if ParseDigits(s) <= MaxInt64 then Ok(ParseDigits(s)) else Err(ErrRange)
    ensures |s| >= 2 && s[0] == '+' && AllDigits(s[1..]) ==>
      r == if ParseDigits(s[1..]) <= MaxInt64 then Ok(ParseDigits(s[1..])) else Err(ErrRange)
    ensures |s| >= 2 && s[0] == '-' && AllDigits(s[1..]) ==>
      r == if ParseDigits(s[1..]) <= -MinInt64 then Ok(-(ParseDigits(s[1..]) as int)) else Err(ErrRange)
  {
    var signed := |s| > 0 && (s[0] == '+' || s[0] == '-');
    var body := if signed then s[1..] else s;
    if |body| == 0 then Err(ErrSyntax)
    else
      var k := DigitRun(body);
      var scanned: int := ParseDigits(body[..k]);
      assert AllDigits(body) ==> k == |body| && body[..k] == body;
      ShortRunFits(body[..k]);
      if scanned > MaxUint64 then Err(ErrRange)
      else if k < |body| then Err(ErrSyntax)
      else
        var v := if signed && s[0] == '-' then -scanned else scanned;
        if v < MinInt64 || v > MaxInt64 then Err(ErrRange) else Ok(v)
  }

  /** A digit string has fewer digits than its value's next power of ten. */
  lemma {:induction false} ParseDigitsBound(x: string)
    requires AllDigits(x)
    ensures ParseDigits(x) < Pow10(|x|)
  {
    if |x| > 0 {
      ParseDigitsBound(x[..|x| - 1]);
    }
  }

  lemma {:induction false} Pow10Monotone(a: nat, b: nat)
    requires a <= b
    ensures Pow10(a) <= Pow10(b)
    decreases b
  {
    if a < b {
      Pow10Monotone(a, b - 1);
    }
  }

  lemma Pow10Value()
    ensures Pow10(19) == 10_000_000_000_000_000_000
  {
    assert Pow10(4) == 10_000;
    assert Pow10(8) == 100_000_000;
    assert Pow10(12) == 1_000_000_000_000;
    assert Pow10(16) == 10_000_000_000_000_000;
  }

  /** Nineteen digits or fewer stay within 64 unsigned bits. */
  lemma ShortRunFits(x: string)
    requires AllDigits(x)
    ensures |x| <= 19 ==> ParseDigits(x) <= MaxUint64
  {
    if |x| <= 19 {
      ParseDigitsBound(x);
      Pow10Monotone(|x|, 19);
      Pow10Value();
    }
  }

  // ---------------------------------------------------------------------
  // Round trips
  // ---------------------------------------------------------------------

  /** Formatting then reading the digits gives the number back. */
  lemma {:induction false} ParseFormat(n: nat)
    ensures ParseDigits(FormatNat(n)) == n
  {
    if n >= 10 {
      ParseFormat(n / 10);
      var s := FormatNat(n);
      assert s[..|s| - 1] == FormatNat(n / 10);
    }
  }

  /** Leading zeros do not change the value of a digit string. */
  lemma {:induction false} ParseLeadingZeros(k: nat, s: string)
    requires AllDigits(s)
    ensures AllDigits(Zeros(k) + s)
    ensures ParseDigits(Zeros(k) + s) == ParseDigits(s)
  {
    var z := Zeros(k) + s;
    assert AllDigits(z) by {
      forall i | 0 <= i < |z| ensures IsDigit(z[i]) {
        if i < k { assert z[i] == Zeros(k)[i]; } else { assert z[i] == s[i - k]; }
      }
    }
    if |s| == 0 {
      if k > 0 {
        assert z[..|z| - 1] == Zeros(k - 1) + s;
        ParseLeadingZeros(k - 1, s);
      }
    } else {
      assert z[..|z| - 1] == Zeros(k) + s[..|s| - 1];
      ParseLeadingZeros(k, s[..|s| - 1]);
    }
  }

  /** A value below 10^k has at most k digits. */
  lemma {:induction false} FormatNatLength(n: nat, k: nat)
    requires k >= 1 && n < Pow10(k)
    ensures |FormatNat(n)| <= k
  {
    if n >= 10 {
      assert k >= 2;
      FormatNatLength(n / 10, k - 1);
    }
  }

  /** A zero-padded field of a value below 10^w is exactly w digits long and
      reads back as the value. */
  lemma PaddedRoundTrip(n: nat, w: nat)
    requires w >= 1 && n < Pow10(w)
    ensures |FormatPadded(n, w)| == w
    ensures AllDigits(FormatPadded(n, w)) && ParseDigits(FormatPadded(n, w)) == n
  {
    FormatNatLength(n, w);
    ParseFormat(n);
    var s := FormatNat(n);
    ZeroPadIsZeros(s, w);
    if |s| < w {
      ParseLeadingZeros(w - |s|, s);
    }
  }

  /** Any zero padding of a non-negative value reads back as the value. */
  lemma PaddedValue(n: nat, w: nat)
    ensures ParseDigits(FormatPadded(n, w)) == n
  {
    ParseFormat(n);
    var s := FormatNat(n);
    ZeroPadIsZeros(s, w);
    if |s| < w {
      ParseLeadingZeros(w - |s|, s);
    }
  }

  /** Atoi reads back what `%d` printed, for every int64 value. */
  lemma AtoiFormat(n: int)
    requires MinInt64 <= n <= MaxInt64
    ensures n >= 0 ==> Atoi(FormatNat(n)) == Ok(n)
    ensures n < 0 ==> Atoi("-" + FormatNat(-n)) == Ok(n)
  {
    if n >= 0 {
      ParseFormat(n);
    } else {
      ParseFormat(-n);
      assert ("-" + FormatNat(-n))[1..] == FormatNat(-n);
    }
  }

  /** Leading zeros and a '+' sign do not change what Atoi reads, and
      neither sign changes a zero. */
  lemma AtoiNonCanonical(k: nat, n: nat)
    requires n <= MaxInt64
    ensures Atoi(Zeros(k) + FormatNat(n)) == Ok(n)
    ensures Atoi("+" + Zeros(k) + FormatNat(n)) == Ok(n)
    ensures Atoi("-" + Zeros(k) + FormatNat(n)) == Ok(-(n as int))
  {
    ParseFormat(n);
    ParseLeadingZeros(k, FormatNat(n));
    var z := Zeros(k) + FormatNat(n);
    assert "+" + Zeros(k) + FormatNat(n) == "+" + z && ("+" + z)[1..] == z;
    assert "-" + Zeros(k) + FormatNat(n) == "-" + z && ("-" + z)[1..] == z;
  }

  /** Reading more digits never lowers the value. */
  lemma {:induction false} ParseDigitsPrefix(x: string, j: nat)
    requires AllDigits(x) && j <= |x|
    ensures AllDigits(x[..j]) && ParseDigits(x[..j]) <= ParseDigits(x)
    decreases |x| - j
  {
    if j < |x| {
      var y := x[..|x| - 1];
      assert y[..j] == x[..j];
      ParseDigitsPrefix(y, j);
    } else {
      assert x[..j] == x;
    }
  }

  /** k nines read as 10^k - 1. */
  lemma {:induction false} NinesValue(k: nat)
    ensures AllDigits(seq(k, _ => '9'))
    ensures ParseDigits(seq(k, _ => '9')) == Pow10(k) - 1
  {
    if k > 0 {
      NinesValue(k - 1);
      assert seq(k, _ => '9')[..k - 1] == seq(k - 1, _ => '9');
    }
  }

  /** The sign Atoi may find in front of the digits. */
  predicate SignText(sign: string)
  {
    sign == "" || sign == "+" || sign == "-"
  }

  /** The run of digits ends at the first character that is not one. */
  lemma {:induction false} DigitRunStops(x: string, j: nat)
    requires j < |x| && !IsDigit(x[j])
    ensures DigitRun(x) <= j
  {
    if j > 0 && IsDigit(x[0]) {
      DigitRunStops(x[1..], j - 1);
    }
  }

  /** With a digit after the sign, the run of digits decides the error. */
  lemma AtoiScan(sign: string, body: string)
    requires SignText(sign) && |body| >= 1 && IsDigit(body[0])
    ensures var k := DigitRun(body);
      && (ParseDigits(body[..k]) > MaxUint64 ==> Atoi(sign + body) == Err(ErrRange))
      && (ParseDigits(body[..k]) <= MaxUint64 && k < |body| ==> Atoi(sign + body) == Err(ErrSyntax))
  {
    var s := sign + body;
    if sign == "" { assert s == body; } else { assert s[1..] == body; }
  }

  /** Once the leading digits are past 2^64 - 1, Atoi reports a range
      error, whatever follows them: the scan stops before it reaches a
      later bad character. */
  lemma AtoiOverflowFirst(sign: string, d: string, tail: string)
    requires SignText(sign) && AllDigits(d) && ParseDigits(d) > MaxUint64
    ensures Atoi(sign + (d + tail)) == Err(ErrRange)
  {
    assert |d| > 0;
    var body := d + tail;
    assert forall i :: 0 <= i < |d| ==> body[i] == d[i];
    var k := DigitRun(body);
    assert k >= |d|;
    ParseDigitsPrefix(body[..k], |d|);
    assert body[..k][..|d|] == d;
    AtoiScan(sign, body);
  }

  /** When the leading digits fit 64 unsigned bits, the first character
      after them that is not a digit makes Atoi a syntax error. */
  lemma AtoiSyntaxAfterFit(sign: string, d: string, c: char, tail: string)
    requires SignText(sign) && |d| >= 1 && AllDigits(d) && ParseDigits(d) <= MaxUint64
    requires !IsDigit(c)
    ensures Atoi(sign + (d + [c] + tail)) == Err(ErrSyntax)
  {
    RunBeforeBadCharacter(d, c, tail);
    AtoiScan(sign, d + [c] + tail);
  }

  lemma RunBeforeBadCharacter(d: string, c: char, tail: string)
    requires AllDigits(d) && !IsDigit(c)
    ensures DigitRun(d + [c] + tail) == |d| && (d + [c] + tail)[..|d|] == d
  {
    var body := d + [c] + tail;
    assert forall i :: 0 <= i < |d| ==> body[i] == d[i];
    assert body[|d|] == c;
    DigitRunStops(body, |d|);
  }

  /** Padding commutes with appending a last character. */
  lemma PadAppend(s: string, c: char, w: nat)
    ensures ZeroPad(s + [c], w + 1) == ZeroPad(s, w) + [c]
  {
    ZeroPadIsZeros(s + [c], w + 1);
    ZeroPadIsZeros(s, w);
    if |s| < w {
      assert Zeros(w - |s|) + (s + [c]) == Zeros(w - |s|) + s + [c];
    }
  }

  /** Reading a digit string and printing the value back at the string's
      own width gives the string again, leading zeros included. */
  lemma {:induction false} DigitsPadded(x: string)
    requires |x| >= 1 && AllDigits(x)
    ensures FormatPadded(ParseDigits(x), |x|) == x
  {
    var y, c := x[..|x| - 1], x[|x| - 1];
    assert x == y + [c];
    var u, d := ParseDigits(y), DigitValue(c);
    var v := ParseDigits(x);
    assert v == 10 * u + d;
    assert DigitChar(d) == c;
    if |y| == 0 {
      assert FormatNat(v) == [c];
    } else {
      DigitsPadded(y);
      if u == 0 {
        assert FormatNat(v) == [c];
        assert "0" + "" == "0";
        assert ZeroPad("", |y|) == ZeroPad("0", |y|);
        PadAppend("", c, |y|);
        assert "" + [c] == [c];
      } else {
        assert v / 10 == u && v % 10 == d;
        assert FormatNat(v) == FormatNat(u) + [c];
        PadAppend(FormatNat(u), c, |y|);
      }
    }
  }
}
