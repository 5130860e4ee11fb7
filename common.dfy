/** Shared vocabulary of the model: optional values, PHP's decimal rounding,
    decimal digit strings, PHP's (int) cast of a string, and sums. */
module Common {

  datatype Option<T> = None | Some(value: T) {
    function GetOr(default: T): T {
      match this
      case Some(v) => v
      case None => default
    }
  }

  /** Seconds in a day. Dates and timestamps are wall-clock seconds on one
      scale, as the database stores them; a date is the second of its
      midnight. */
  const DaySeconds: int := 86400

  // ---------------------------------------------------------------------------
  // Rounding
  // ---------------------------------------------------------------------------

  /** PHP's round() applied to the exact rational n / d: the nearest integer,
      halves rounded away from zero. round(x, 2) on an amount in euros is
      RoundDiv on the amount expressed in hundredths of a cent, and so on. */
  function RoundDiv(n: int, d: int): (r: int)
    requires d > 0
    ensures n >= 0 ==> r >= 0 && 2 * r * d - d <= 2 * n < 2 * r * d + d
    ensures n < 0 ==> r <= 0 && 2 * r * d - d < 2 * n <= 2 * r * d + d
  {
    if n >= 0 then HalfUp(n, d) else -(HalfUp(-n, d) as int)
  }

  /** r is PHP's round() of n / d: within half a unit of it, a half going
      away from zero. */
  predicate RoundsTo(r: int, n: int, d: int) {
    && (n >= 0 ==> 2 * r * d - d <= 2 * n < 2 * r * d + d)
    && (n < 0 ==> 2 * r * d - d < 2 * n <= 2 * r * d + d)
  }

  /** Round half up of a non-negative n / d. */
  function HalfUp(n: nat, d: int): (r: nat)
    requires d > 0
    ensures 2 * r * d - d <= 2 * n < 2 * r * d + d
  {
    var q := (2 * n + d) / (2 * d);
    assert q * (2 * d) <= 2 * n + d < q * (2 * d) + 2 * d;
    q
  }

  /** A non-zero multiple of d is at least d away from zero. */
  lemma MultipleBound(e: int, d: int)
    requires d > 0
    ensures e >= 1 ==> e * d >= d
    ensures e <= -1 ==> e * d <= -d
  {
    if e >= 1 { assert e * d == (e - 1) * d + d; }
    if e <= -1 { assert e * d == (e + 1) * d - d; }
  }

  /** An exact quotient needs no rounding. */
  lemma RoundDivExact(q: int, d: int)
    requires d > 0
    ensures RoundDiv(q * d, d) == q
  {
    var r := RoundDiv(q * d, d);
    assert 2 * (r - q) * d == 2 * r * d - 2 * (q * d);
    MultipleBound(r - q, d);
  }

  /** Adding a whole number of units commutes with rounding when both sides
      stay on the same side of zero. */
  lemma RoundDivShift(n: int, k: int, d: int)
    requires d > 0 && n >= 0 && k >= 0
    ensures RoundDiv(n + k * d, d) == RoundDiv(n, d) + k
  {
    var a := RoundDiv(n, d);
    var b := RoundDiv(n + k * d, d);
    assert 2 * b * d == 2 * (b - k) * d + 2 * k * d;
    NearestIsUnique(b - k, a, n, d);
  }

  /** At most one integer lies within half a unit of n / d. */
  lemma NearestIsUnique(x: int, y: int, n: int, d: int)
    requires d > 0
    requires 2 * x * d - d <= 2 * n < 2 * x * d + d
    requires 2 * y * d - d <= 2 * n < 2 * y * d + d
    ensures x == y
  {
    assert 2 * (x - y) * d == 2 * x * d - 2 * y * d;
    MultipleBound(x - y, d);
  }

  // ---------------------------------------------------------------------------
  // Decimal digit strings
  // ---------------------------------------------------------------------------

  predicate IsDigit(c: char) {
    '0' <= c <= '9'
  }

  predicate AllDigits(s: string) {
    forall i :: 0 <= i < |s| ==> IsDigit(s[i])
  }

  function DigitChar(d: nat): (c: char)
    requires d < 10
    ensures IsDigit(c) && c as int - '0' as int == d
  {
    (d + '0' as int) as char
  }

  /** The decimal numeral of n, as PHP's int-to-string conversion writes it. */
  function NatToString(n: nat): (s: string)
    ensures |s| >= 1 && AllDigits(s)
    ensures n < 10 <==> |s| == 1
    decreases n
  {
    if n < 10 then [DigitChar(n)] else NatToString(n / 10) + [DigitChar(n % 10)]
  }

  /** The value of a string of decimal digits (leading zeros allowed). */
  function DigitsValue(s: string): nat
    requires AllDigits(s)
  {
    if s == [] then 0
    else DigitsValue(s[..|s| - 1]) * 10 + (s[|s| - 1] as int - '0' as int)
  }

  lemma {:induction false} DigitsValueOfNatToString(n: nat)
    ensures DigitsValue(NatToString(n)) == n
    decreases n
  {
    if n >= 10 {
      var s := NatToString(n);
      assert s[..|s| - 1] == NatToString(n / 10);
      DigitsValueOfNatToString(n / 10);
    }
  }

  function Zeros(k: nat): (z: string)
    ensures |z| == k && AllDigits(z)
    ensures forall i :: 0 <= i < k ==> z[i] == '0'
  {
    seq(k, _ => '0')
  }

  lemma {:induction false} DigitsValueLeadingZeros(k: nat, s: string)
    requires AllDigits(s)
    ensures DigitsValue(Zeros(k) + s) == DigitsValue(s)
    decreases |s|
  {
    if s == [] {
      assert Zeros(k) + s == Zeros(k);
      ZerosValue(k);
    } else {
      var t := Zeros(k) + s;
      assert t[..|t| - 1] == Zeros(k) + s[..|s| - 1];
      DigitsValueLeadingZeros(k, s[..|s| - 1]);
    }
  }

  lemma {:induction false} ZerosValue(k: nat)
    ensures DigitsValue(Zeros(k)) == 0
  {
    if k > 0 {
      assert Zeros(k)[..k - 1] == Zeros(k - 1);
      ZerosValue(k - 1);
    }
  }

  /** PHP's str_pad($s, $w, '0', STR_PAD_LEFT): left-pads with zeros to at
      least w characters and never truncates. */
  function PadLeft(s: string, w: nat): (r: string)
    ensures |r| == if |s| >= w then |s| else w
    ensures r[|r| - |s|..] == s
    ensures forall i :: 0 <= i < |r| - |s| ==> r[i] == '0'
  {
    if |s| >= w then s else Zeros(w - |s|) + s
  }

  /** A zero-padded numeral reads back as the number it was made from. */
  lemma PaddedNumeralValue(n: nat, w: nat)
    ensures AllDigits(PadLeft(NatToString(n), w))
    ensures DigitsValue(PadLeft(NatToString(n), w)) == n
  {
    var s := NatToString(n);
    PaddedDigits(s, w);
    PaddedValue(s, w);
    DigitsValueOfNatToString(n);
  }

  /** Leading zeros do not change the value of a digit string. */
  lemma PaddedValue(s: string, w: nat)
    requires AllDigits(s)
    ensures AllDigits(PadLeft(s, w)) && DigitsValue(PadLeft(s, w)) == DigitsValue(s)
  {
    PaddedDigits(s, w);
    if |s| < w {
      assert PadLeft(s, w) == Zeros(w - |s|) + s;
      DigitsValueLeadingZeros(w - |s|, s);
    }
  }

  /** Padding an all-digit string with zeros keeps it all digits. */
  lemma PaddedDigits(s: string, w: nat)
    requires AllDigits(s)
    ensures AllDigits(PadLeft(s, w))
  {
    var p := PadLeft(s, w);
    forall i | 0 <= i < |p|
      ensures IsDigit(p[i])
    {
      if i >= |p| - |s| {
        assert p[i] == p[|p| - |s|..][i - (|p| - |s|)];
      }
    }
  }

  // ---------------------------------------------------------------------------
  // PHP (int) cast of a string
  // ---------------------------------------------------------------------------

  predicate IsPhpWhitespace(c: char) {
    c == ' ' || c == '\t' || c == '\n' || c == '\r' || c == '\U{B}' || c == '\U{C}'
  }

  function DropWhitespace(s: string): (r: string)
    ensures |r| <= |s| && r == s[|s| - |r|..]
    ensures r != [] ==> !IsPhpWhitespace(r[0])
  {
    if s != [] && IsPhpWhitespace(s[0]) then DropWhitespace(s[1..]) else s
  }

  /** The longest prefix of s made of decimal digits. */
  function LeadingDigits(s: string): (r: string)
    ensures AllDigits(r) && r <= s
    ensures |r| < |s| ==> !IsDigit(s[|r|])
  {
    if s != [] && IsDigit(s[0]) then [s[0]] + LeadingDigits(s[1..]) else []
  }

  /** PHP's (int) of a string: leading whitespace, an optional sign, then the
      longest run of decimal digits; a string without one gives 0. */
  function IntCast(s: string): (r: int)
    ensures '-' !in s ==> r >= 0
  {
    var t := DropWhitespace(s);
    if t != [] && t[0] == '-' then -(DigitsValue(LeadingDigits(t[1..])) as int)
    else if t != [] && t[0] == '+' then DigitsValue(LeadingDigits(t[1..]))
    else DigitsValue(LeadingDigits(t))
  }

  lemma {:induction false} LeadingDigitsOfDigits(s: string)
    requires AllDigits(s)
    ensures LeadingDigits(s) == s
  {
    if s != [] {
      LeadingDigitsOfDigits(s[1..]);
    }
  }

  /** On a string of digits the cast is the digits' value. */
  lemma IntCastOfDigits(s: string)
    requires AllDigits(s)
    ensures IntCast(s) == DigitsValue(s)
  {
    assert DropWhitespace(s) == s;
    LeadingDigitsOfDigits(s);
  }

  // ---------------------------------------------------------------------------
  // Sums
  // ---------------------------------------------------------------------------

  function Sum(xs: seq<int>): int {
    if xs == [] then 0 else Sum(xs[..|xs| - 1]) + xs[|xs| - 1]
  }

  lemma {:induction false} SumConcat(a: seq<int>, b: seq<int>)
    ensures Sum(a + b) == Sum(a) + Sum(b)
    decreases |b|
  {
    if b != [] {
      assert (a + b)[..|a + b| - 1] == a + b[..|b| - 1];
      SumConcat(a, b[..|b| - 1]);
    } else {
      assert a + b == a;
    }
  }
}
