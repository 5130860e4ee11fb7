/** Document numbering: generer_numero_devis and generer_numero_facture of
    app/Helpers/EntrepriseHelper.php. The database query for the last number
    becomes the input `existing` (the numbers already stored), and date('Y')
    becomes the input `year`. */
module Numbering {
  import opened Common

  /** The numbering section of config/entreprise.php for one document type. */
  datatype NumberingConfig = NumberingConfig(format: string, prefix: string, width: nat, annualReset: bool)

  const DevisConfig := NumberingConfig("DEV-{YYYY}-{NNN}", "DEV", 3, true)
  const FactureConfig := NumberingConfig("F-{YYYY}-{NNN}", "F", 3, true)

  function Pow10(k: nat): (p: nat)
    ensures p >= 1
  {
    if k == 0 then 1 else 10 * Pow10(k - 1)
  }

  // ---------------------------------------------------------------------------
  // String primitives: date('Y'), substr(-2), LIKE 'p%', ORDER BY, explode/end
  // ---------------------------------------------------------------------------

  /** date('Y'): the year with at least four digits. */
  function YearString(year: nat): (y: string)
    ensures AllDigits(y) && |y| >= 4
  {
    PaddedNumeralValue(year, 4);
    PadLeft(NatToString(year), 4)
  }

  /** substr($annee, -2): the last two characters. */
  function LastTwo(s: string): (r: string)
    ensures |s| >= 2 ==> |r| == 2 && s == s[..|s| - 2] + r
    ensures |s| < 2 ==> r == s
  {
    if |s| >= 2 then s[|s| - 2..] else s
  }

  predicate StartsWith(s: string, p: string) {
    p <= s
  }

  /** The literal part of the LIKE pattern the last number is searched with:
      the configured prefix and a dash, then the year and a dash when the
      sequence restarts every year; it always ends with a dash. */
  function SearchPrefix(cfg: NumberingConfig, year: nat): string {
    if cfg.annualReset then cfg.prefix + "-" + YearString(year) + "-" else cfg.prefix + "-"
  }

  /** Lexicographic order on character codes (ORDER BY numero). */
  predicate LexLe(a: string, b: string)
    decreases |a|
  {
    a == [] || (b != [] && (a[0] < b[0] || (a[0] == b[0] && LexLe(a[1..], b[1..]))))
  }

  lemma {:induction false} LexLeTotal(a: string, b: string)
    ensures LexLe(a, b) || LexLe(b, a)
    decreases |a|
  {
    if a != [] && b != [] && a[0] == b[0] {
      LexLeTotal(a[1..], b[1..]);
    }
  }

  lemma {:induction false} LexLeTransitive(a: string, b: string, c: string)
    requires LexLe(a, b) && LexLe(b, c)
    ensures LexLe(a, c)
    decreases |a|
  {
    if a != [] && b != [] && c != [] && a[0] == b[0] == c[0] {
      LexLeTransitive(a[1..], b[1..], c[1..]);
    }
  }

  lemma {:induction false} LexLeAntisymmetric(a: string, b: string)
    requires LexLe(a, b) && LexLe(b, a)
    ensures a == b
    decreases |a|
  {
    if a != [] {
      LexLeAntisymmetric(a[1..], b[1..]);
      assert a == [a[0]] + a[1..] && b == [b[0]] + b[1..];
    }
  }

  /** A common prefix does not change the order. */
  lemma {:induction false} LexLeCommonPrefix(p: string, a: string, b: string)
    ensures LexLe(p + a, p + b) <==> LexLe(a, b)
    decreases |p|
  {
    if p != [] {
      var pa, pb := p + a, p + b;
      assert pa != [] && pb != [] && pa[0] == pb[0] == p[0];
      assert pa[1..] == p[1..] + a && pb[1..] == p[1..] + b;
      LexLeCommonPrefix(p[1..], a, b);
      assert LexLe(pa, pb) <==> LexLe(pa[1..], pb[1..]);
    } else {
      assert p + a == a && p + b == b;
    }
  }

  /** The numeral value of a digit string read from its first digit. */
  lemma {:induction false} DigitsValueCons(c: char, s: string)
    requires IsDigit(c) && AllDigits(s)
    ensures AllDigits([c] + s)
    ensures DigitsValue([c] + s) == (c as int - '0' as int) * Pow10(|s|) + DigitsValue(s)
    decreases |s|
  {
    assert AllDigits([c] + s);
    if s != [] {
      var t := [c] + s;
      assert t[..|t| - 1] == [c] + s[..|s| - 1];
      DigitsValueCons(c, s[..|s| - 1]);
      var k := c as int - '0' as int;
      var d := s[|s| - 1] as int - '0' as int;
      var v := DigitsValue(s[..|s| - 1]);
      var q := Pow10(|s| - 1);
      assert DigitsValue(t) == DigitsValue([c] + s[..|s| - 1]) * 10 + d;
      assert DigitsValue(s) == v * 10 + d;
      assert Pow10(|s|) == q * 10;
      ShiftDigit(k, q, v, d);
    }
  }

  lemma ShiftDigit(k: int, q: int, v: int, d: int)
    ensures (k * q + v) * 10 + d == k * (q * 10) + (v * 10 + d)
  {
  }

  lemma {:induction false} DigitsValueBound(s: string)
    requires AllDigits(s)
    ensures DigitsValue(s) < Pow10(|s|)
    decreases |s|
  {
    if s != [] {
      DigitsValueBound(s[..|s| - 1]);
    }
  }

  /** For digit strings of one width, string order is numeric order. */
  lemma {:induction false} LexLeDigits(a: string, b: string)
    requires |a| == |b| && AllDigits(a) && AllDigits(b)
    requires LexLe(a, b)
    ensures DigitsValue(a) <= DigitsValue(b)
    decreases |a|
  {
    if a != [] {
      var a', b' := a[1..], b[1..];
      assert a == [a[0]] + a' && b == [b[0]] + b';
      var x := a[0] as int - '0' as int;
      var y := b[0] as int - '0' as int;
      var p := Pow10(|a'|);
      DigitsValueCons(a[0], a');
      DigitsValueCons(b[0], b');
      if a[0] < b[0] {
        DigitsValueBound(a');
        LeadingDigitDominates(x, y, p, DigitsValue(a'), DigitsValue(b'));
      } else {
        assert a[0] == b[0] && LexLe(a', b');
        LexLeDigits(a', b');
      }
    }
  }

  lemma LeadingDigitDominates(x: int, y: int, p: int, u: int, v: int)
    requires 0 <= x < y && 0 <= u < p && 0 <= v
    ensures x * p + u <= y * p + v
  {
    assert y * p == x * p + (y - x) * p;
    assert (y - x) * p >= p by { MultipleBound(y - x, p); }
  }

  /** A numeral below 10^w has at most w digits. */
  lemma {:induction false} NumeralWidth(n: nat, w: nat)
    requires 1 <= w && n < Pow10(w)
    ensures |NatToString(n)| <= w
    decreases n
  {
    if n >= 10 {
      if w == 1 {
        assert false;
      }
      assert n / 10 < Pow10(w - 1);
      NumeralWidth(n / 10, w - 1);
    }
  }

  /** explode('-', $s) followed by end(): what follows the last '-'. */
  function LastSegment(s: string): (r: string)
    ensures '-' !in r && |r| <= |s| && r == s[|s| - |r|..]
  {
    if s == [] || s[|s| - 1] == '-' then []
    else LastSegment(s[..|s| - 1]) + [s[|s| - 1]]
  }

  lemma {:induction false} LastSegmentAfterDash(a: string, s: string)
    requires a != [] && a[|a| - 1] == '-' && '-' !in s
    ensures LastSegment(a + s) == s
    decreases |s|
  {
    if s == [] {
      assert a + s == a;
    } else {
      var t := a + s;
      assert t[..|t| - 1] == a + s[..|s| - 1];
      LastSegmentAfterDash(a, s[..|s| - 1]);
    }
  }

  // ---------------------------------------------------------------------------
  // The last existing number
  // ---------------------------------------------------------------------------

  /** orderBy('numero', 'desc')->value('numero') over the numbers that start
      with the LIKE prefix: the greatest one in string order, if any. */
  function LastNumber(existing: seq<string>, p: string): (r: Option<string>)
    ensures r.None? <==> forall x :: x in existing ==> !StartsWith(x, p)
    ensures r.Some? ==> r.value in existing && StartsWith(r.value, p)
    ensures r.Some? ==> forall x :: x in existing && StartsWith(x, p) ==> LexLe(x, r.value)
  {
    if existing == [] then None
    else
      var init := existing[..|existing| - 1];
      var x := existing[|existing| - 1];
      assert existing == init + [x];
      var rest := LastNumber(init, p);
      LexLeTotal(x, x);
      if !StartsWith(x, p) then rest
      else if rest.None? then Some(x)
      else
        LexLeTotal(x, rest.value);
        if LexLe(x, rest.value) then rest
        else
          assert forall y :: y in init && StartsWith(y, p) ==> LexLe(y, x) by {
            forall y | y in init && StartsWith(y, p) ensures LexLe(y, x) {
              LexLeTransitive(y, rest.value, x);
            }
          }
          Some(x)
  }

  /** PHP truthiness of a string: "" and "0" are false. */
  predicate Truthy(s: string) {
    s != "" && s != "0"
  }

  /** The sequence number the next document receives. */
  function SequenceNumber(cfg: NumberingConfig, year: nat, existing: seq<string>): (n: nat)
    ensures n >= 1
  {
    match LastNumber(existing, SearchPrefix(cfg, year))
    case Some(last) =>
      if Truthy(last) then IntCast(LastSegment(last)) + 1 else 1
    case None => 1
  }

  // ---------------------------------------------------------------------------
  // str_replace of the placeholders
  // ---------------------------------------------------------------------------

  /** str_replace($t, $r, $s): every occurrence of t, scanned left to right
      without overlap, replaced by r. */
  function ReplaceAll(s: string, t: string, r: string): string
    requires |t| > 0
    decreases |s|
  {
    if |s| < |t| then s
    else if s[..|t|] == t then r + ReplaceAll(s[|t|..], t, r)
    else [s[0]] + ReplaceAll(s[1..], t, r)
  }

  /** A prefix in which the search string cannot start is copied unchanged. */
  lemma {:induction false} ReplaceAllSkip(p: string, s: string, t: string, r: string)
    requires |t| > 0
    requires forall i :: 0 <= i < |p| ==> p[i] != t[0]
    ensures ReplaceAll(p + s, t, r) == p + ReplaceAll(s, t, r)
    decreases |p|
  {
    if p != [] {
      var u := p + s;
      if |u| >= |t| {
        assert u[..|t|][0] == p[0];
        assert u[..|t|] != t;
        assert u[1..] == p[1..] + s;
        ReplaceAllSkip(p[1..], s, t, r);
        assert ReplaceAll(u, t, r) == [p[0]] + (p[1..] + ReplaceAll(s, t, r));
        assert p == [p[0]] + p[1..];
      } else {
        assert ReplaceAll(s, t, r) == s;
      }
    } else {
      assert p + s == s;
    }
  }

  lemma ReplaceAllAbsent(s: string, t: string, r: string)
    requires |t| > 0
    requires forall i :: 0 <= i < |s| ==> s[i] != t[0]
    ensures ReplaceAll(s, t, r) == s
  {
    ReplaceAllSkip(s, [], t, r);
    assert s + [] == s;
  }

  lemma ReplaceAllHead(t: string, s: string, r: string)
    requires |t| > 0
    ensures ReplaceAll(t + s, t, r) == r + ReplaceAll(s, t, r)
  {
    assert (t + s)[..|t|] == t && (t + s)[|t|..] == s;
  }

  /** The placeholder substitution of both generators, in the order
      {YYYY}, {YY}, {NNN}, {NN}, {N}. A format without a brace has no
      placeholder and comes out unchanged. */
  function Format(format: string, year: nat, n: nat, width: nat): (r: string)
    ensures NoBrace(format) ==> r == format
  {
    var yyyy := YearString(year);
    var s1 := ReplaceAll(format, "{YYYY}", yyyy);
    var s2 := ReplaceAll(s1, "{YY}", LastTwo(yyyy));
    var s3 := ReplaceAll(s2, "{NNN}", PadLeft(NatToString(n), width));
    var s4 := ReplaceAll(s3, "{NN}", PadLeft(NatToString(n), 2));
    if NoBrace(format) then
      ReplaceAllAbsent(format, "{YYYY}", yyyy);
      ReplaceAllAbsent(format, "{YY}", LastTwo(yyyy));
      ReplaceAllAbsent(format, "{NNN}", PadLeft(NatToString(n), width));
      ReplaceAllAbsent(format, "{NN}", PadLeft(NatToString(n), 2));
      ReplaceAllAbsent(format, "{N}", NatToString(n));
      ReplaceAll(s4, "{N}", NatToString(n))
    else
      ReplaceAll(s4, "{N}", NatToString(n))
  }

  /** The number the generator hands out, as written: the format with the
      next sequence number substituted; with a default-shaped format, the
      search prefix followed by the zero-padded sequence number. */
  function GenerateNumber(cfg: NumberingConfig, year: nat, existing: seq<string>): (r: string)
    ensures DefaultShaped(cfg) ==>
              r == SearchPrefix(cfg, year) + PadLeft(NatToString(SequenceNumber(cfg, year, existing)), cfg.width)
  {
    var n := SequenceNumber(cfg, year, existing);
    if DefaultShaped(cfg) then
      DefaultShapedFormat(cfg, year, n);
      Format(cfg.format, year, n, cfg.width)
    else
      Format(cfg.format, year, n, cfg.width)
  }

  /** genererNumeroDevis: "DEV-", the year, "-", then the next sequence
      number padded to three digits. */
  function GenererNumeroDevis(year: nat, existing: seq<string>): (r: string)
    ensures r == "DEV-" + YearString(year) + "-" + PadLeft(NatToString(SequenceNumber(DevisConfig, year, existing)), 3)
  {
    ShippedConfigsAreDefaultShaped();
    var p, d := "DEV", "-";
    assert p + d == "DEV-";
    assert SearchPrefix(DevisConfig, year) == p + d + YearString(year) + d;
    GenerateNumber(DevisConfig, year, existing)
  }

  /** genererNumeroFacture: "F-", the year, "-", then the next sequence
      number padded to three digits. */
  function GenererNumeroFacture(year: nat, existing: seq<string>): (r: string)
    ensures r == "F-" + YearString(year) + "-" + PadLeft(NatToString(SequenceNumber(FactureConfig, year, existing)), 3)
  {
    ShippedConfigsAreDefaultShaped();
    var p, d := "F", "-";
    assert p + d == "F-";
    assert SearchPrefix(FactureConfig, year) == p + d + YearString(year) + d;
    GenerateNumber(FactureConfig, year, existing)
  }

  // ---------------------------------------------------------------------------
  // Properties
  // ---------------------------------------------------------------------------

  predicate NoBrace(s: string) {
    forall i :: 0 <= i < |s| ==> s[i] != '{'
  }

  /** A configuration shaped like the shipped ones: "<prefix>-{YYYY}-{NNN}",
      annual reset, a prefix without braces (it may contain dashes: the
      sequence segment is read after the last one). */
  predicate DefaultShaped(cfg: NumberingConfig) {
    && cfg.format == cfg.prefix + "-" + "{YYYY}" + "-" + "{NNN}"
    && cfg.annualReset
    && NoBrace(cfg.prefix)
  }

  lemma ShippedConfigsAreDefaultShaped()
    ensures DefaultShaped(DevisConfig) && DefaultShaped(FactureConfig)
  {
    assert DevisConfig.format == "DEV" + "-" + "{YYYY}" + "-" + "{NNN}";
    assert FactureConfig.format == "F" + "-" + "{YYYY}" + "-" + "{NNN}";
  }

  lemma Assoc(a: string, b: string, c: string)
    ensures a + b + c == a + (b + c)
  {
  }

  /** The year placeholder is replaced; a brace-free head is copied. */
  lemma ReplaceYearStep(head: string, y: string)
    requires NoBrace(head)
    ensures ReplaceAll(head + "{YYYY}" + "-" + "{NNN}", "{YYYY}", y) == head + y + "-" + "{NNN}"
  {
    var t, d, m := "{YYYY}", "-", "{NNN}";
    Assoc(head, t, d);
    Assoc(head, t + d, m);
    Assoc(t, d, m);
    ReplaceAllSkip(head, t + (d + m), t, y);
    ReplaceAllHead(t, d + m, y);
    ReplaceAllSkip(d, m, t, y);
    assert |m| < |t|;
    Assoc(head, y, d);
    Assoc(head, y + d, m);
    Assoc(y, d, m);
  }

  /** "{NNN}" holds no "{YY}". */
  lemma ReplaceTwoDigitYearStep(pre: string, v: string)
    requires NoBrace(pre)
    ensures ReplaceAll(pre + "{NNN}", "{YY}", v) == pre + "{NNN}"
  {
    var m := "{NNN}";
    ReplaceAllSkip(pre, m, "{YY}", v);
    assert m[..4] != "{YY}" by { assert m[..4][1] == 'N'; }
    ReplaceAllAbsent(m[1..], "{YY}", v);
    assert m == [m[0]] + m[1..];
  }

  lemma ReplaceNumberStep(pre: string, pad: string)
    requires NoBrace(pre)
    ensures ReplaceAll(pre + "{NNN}", "{NNN}", pad) == pre + pad
  {
    var m: string := "{NNN}";
    ReplaceAllSkip(pre, m, m, pad);
    ReplaceAllHead(m, [], pad);
    assert m + [] == m;
    assert pad + [] == pad;
  }

  /** Substituting into "<head>{YYYY}-{NNN}" gives head, the year, a dash and
      the padded sequence number. */
  lemma FormatDefaultShape(head: string, year: nat, n: nat, width: nat)
    requires NoBrace(head)
    ensures Format(head + "{YYYY}" + "-" + "{NNN}", year, n, width)
         == head + YearString(year) + "-" + PadLeft(NatToString(n), width)
  {
    var y := YearString(year);
    var pad := PadLeft(NatToString(n), width);
    var f := head + "{YYYY}" + "-" + "{NNN}";
    var pre := head + y + "-";
    PaddedNumeralValue(n, width);
    NoBraceDigits(y);
    NoBraceDigits(pad);
    NoBraceConcat(head, y);
    NoBraceConcat(head + y, "-");
    NoBraceConcat(pre, pad);
    var s1 := ReplaceAll(f, "{YYYY}", y);
    var s2 := ReplaceAll(s1, "{YY}", LastTwo(y));
    var s3 := ReplaceAll(s2, "{NNN}", pad);
    var s4 := ReplaceAll(s3, "{NN}", PadLeft(NatToString(n), 2));
    var s5 := ReplaceAll(s4, "{N}", NatToString(n));
    assert Format(f, year, n, width) == s5;
    assert s1 == pre + "{NNN}" by { ReplaceYearStep(head, y); }
    assert s2 == s1 by { ReplaceTwoDigitYearStep(pre, LastTwo(y)); }
    assert s3 == pre + pad by { ReplaceNumberStep(pre, pad); }
    assert s4 == s3 by { ReplaceAllAbsent(s3, "{NN}", PadLeft(NatToString(n), 2)); }
    assert s5 == s4 by { ReplaceAllAbsent(s4, "{N}", NatToString(n)); }
  }

  lemma NoBraceDigits(s: string)
    requires AllDigits(s)
    ensures NoBrace(s)
  {
    forall i | 0 <= i < |s| ensures s[i] != '{' {
      assert IsDigit(s[i]);
    }
  }

  lemma NoBraceConcat(a: string, b: string)
    requires NoBrace(a) && NoBrace(b)
    ensures NoBrace(a + b)
  {
    forall i | 0 <= i < |a + b| ensures (a + b)[i] != '{' {
      if i < |a| { assert (a + b)[i] == a[i]; } else { assert (a + b)[i] == b[i - |a|]; }
    }
  }

  /** A default-shaped format becomes the search prefix followed by the
      zero-padded number. */
  lemma DefaultShapedFormat(cfg: NumberingConfig, year: nat, n: nat)
    requires DefaultShaped(cfg)
    ensures Format(cfg.format, year, n, cfg.width) == SearchPrefix(cfg, year) + PadLeft(NatToString(n), cfg.width)
  {
    assert cfg.format == (cfg.prefix + "-") + "{YYYY}" + "-" + "{NNN}";
    FormatDefaultShape(cfg.prefix + "-", year, n, cfg.width);
  }

  /** The default quote format: "DEV-", the year, "-", then the sequence
      number padded to three digits (never truncated); reading the last
      dash-separated segment back gives the sequence number. */
  lemma DevisNumberRoundTrip(year: nat, existing: seq<string>)
    ensures var n := SequenceNumber(DevisConfig, year, existing);
            var r := GenererNumeroDevis(year, existing);
            && r == "DEV-" + YearString(year) + "-" + PadLeft(NatToString(n), 3)
            && IntCast(LastSegment(r)) == n
  {
    var n := SequenceNumber(DevisConfig, year, existing);
    ShippedConfigsAreDefaultShaped();
    assert GenererNumeroDevis(year, existing) == GenerateNumber(DevisConfig, year, existing);
    assert GenerateNumber(DevisConfig, year, existing) == SearchPrefix(DevisConfig, year) + PadLeft(NatToString(n), 3);
    SegmentReadsBack(DevisConfig, year, n);
  }

  /** The same for invoices with the "F" prefix. */
  lemma FactureNumberRoundTrip(year: nat, existing: seq<string>)
    ensures var n := SequenceNumber(FactureConfig, year, existing);
            var r := GenererNumeroFacture(year, existing);
            && r == "F-" + YearString(year) + "-" + PadLeft(NatToString(n), 3)
            && IntCast(LastSegment(r)) == n
  {
    var n := SequenceNumber(FactureConfig, year, existing);
    ShippedConfigsAreDefaultShaped();
    assert GenererNumeroFacture(year, existing) == GenerateNumber(FactureConfig, year, existing);
    assert GenerateNumber(FactureConfig, year, existing) == SearchPrefix(FactureConfig, year) + PadLeft(NatToString(n), 3);
    SegmentReadsBack(FactureConfig, year, n);
  }

  lemma SegmentReadsBack(cfg: NumberingConfig, year: nat, n: nat)
    requires cfg.annualReset
    ensures var pad := PadLeft(NatToString(n), cfg.width);
            LastSegment(SearchPrefix(cfg, year) + pad) == pad && IntCast(pad) == n
  {
    var pad := PadLeft(NatToString(n), cfg.width);
    PaddedNumeralValue(n, cfg.width);
    LastSegmentAfterDash(SearchPrefix(cfg, year), pad);
    IntCastOfDigits(pad);
  }

  /** The first number of a year (or of all time without annual reset) is 1. */
  lemma FirstNumberIsOne(cfg: NumberingConfig, year: nat, existing: seq<string>)
    requires forall x :: x in existing ==> !StartsWith(x, SearchPrefix(cfg, year))
    ensures SequenceNumber(cfg, year, existing) == 1
  {
  }

  /** Otherwise the sequence continues from the string-greatest match. */
  lemma NextAfterGreatest(cfg: NumberingConfig, year: nat, existing: seq<string>, last: string)
    requires last in existing && StartsWith(last, SearchPrefix(cfg, year))
    requires forall x :: x in existing && StartsWith(x, SearchPrefix(cfg, year)) ==> LexLe(x, last)
    ensures SequenceNumber(cfg, year, existing) == IntCast(LastSegment(last)) + 1
  {
    var p := SearchPrefix(cfg, year);
    var r := LastNumber(existing, p);
    LexLeAntisymmetric(last, r.value);
    assert '-' in p by { assert p[|cfg.prefix|] == '-'; }
    assert last[|cfg.prefix|] == '-';
  }

  /** A stored number in the canonical form: the prefix followed by exactly w digits. */
  predicate WellFormed(x: string, p: string, w: nat) {
    StartsWith(x, p) && |x| == |p| + w && AllDigits(x[|p|..])
  }


  lemma SearchPrefixEndsWithDash(cfg: NumberingConfig, year: nat)
    ensures var p := SearchPrefix(cfg, year); p != [] && p[|p| - 1] == '-'
  {
  }

  /** A canonical stored number reads back as the value of its digits. */
  lemma CanonicalSegment(g: string, p: string, w: nat)
    requires WellFormed(g, p, w) && p != [] && p[|p| - 1] == '-'
    ensures g == p + g[|p|..] && LastSegment(g) == g[|p|..]
    ensures Truthy(g) && IntCast(LastSegment(g)) == DigitsValue(g[|p|..])
  {
    var sg := g[|p|..];
    assert g == p + sg;
    assert g[|p| - 1] == '-';
    LastSegmentAfterDash(p, sg);
    IntCastOfDigits(sg);
  }

  /** As written, the generated number is fresh as long as every stored number
      is canonical and the new sequence number still fits the pad width. */
  lemma GeneratedNumberFresh(cfg: NumberingConfig, year: nat, existing: seq<string>)
    requires DefaultShaped(cfg)
    requires forall x :: x in existing && StartsWith(x, SearchPrefix(cfg, year))
                         ==> WellFormed(x, SearchPrefix(cfg, year), cfg.width)
    requires SequenceNumber(cfg, year, existing) < Pow10(cfg.width)
    ensures GenerateNumber(cfg, year, existing) !in existing
  {
    var p := SearchPrefix(cfg, year);
    var n := SequenceNumber(cfg, year, existing);
    var pad := PadLeft(NatToString(n), cfg.width);
    assert GenerateNumber(cfg, year, existing) == p + pad;
    if p + pad in existing {
      PaddedNumeralValue(n, cfg.width);
      NumeralWidth(n, cfg.width);
      SearchPrefixEndsWithDash(cfg, year);
      var g := LastNumber(existing, p).value;
      var sg := g[|p|..];
      CanonicalSegment(g, p, cfg.width);
      assert n == DigitsValue(sg) + 1;
      assert LexLe(p + pad, p + sg);
      LexLeCommonPrefix(p, pad, sg);
      LexLeDigits(pad, sg);
      assert false;
    }
  }

  lemma DefaultConfigsFresh(year: nat, devis: seq<string>, factures: seq<string>)
    requires forall x :: x in devis && StartsWith(x, SearchPrefix(DevisConfig, year))
                         ==> WellFormed(x, SearchPrefix(DevisConfig, year), 3)
    requires SequenceNumber(DevisConfig, year, devis) < 1000
    requires forall x :: x in factures && StartsWith(x, SearchPrefix(FactureConfig, year))
                         ==> WellFormed(x, SearchPrefix(FactureConfig, year), 3)
    requires SequenceNumber(FactureConfig, year, factures) < 1000
    ensures GenererNumeroDevis(year, devis) !in devis
    ensures GenererNumeroFacture(year, factures) !in factures
  {
    ShippedConfigsAreDefaultShaped();
    assert Pow10(3) == 1000;
    GeneratedNumberFresh(DevisConfig, year, devis);
    GeneratedNumberFresh(FactureConfig, year, factures);
  }

  lemma Numerals()
    ensures PadLeft(NatToString(1000), 3) == "1000"
    ensures IntCast("999") == 999
  {
    assert NatToString(1) == "1";
    assert NatToString(10) == "1" + "0";
    assert NatToString(100) == "10" + "0";
    assert NatToString(1000) == "100" + "0";
    var n9: string := "999";
    assert n9[..2] == "99" && n9[..2][..1] == "9" && n9[..2][..1][..0] == [];
    assert DigitsValue("9") == 9;
    assert DigitsValue("99") == 99;
    assert DigitsValue(n9) == 999;
    IntCastOfDigits(n9);
  }

  /** The defect: once quote 1000 of a year exists ("DEV-2024-1000" in 2024)
      it sorts below quote 999 ("DEV-2024-999"), so the generator hands out
      number 1000 a second time. */
  lemma DuplicateAfterNineHundredNinetyNine(year: nat)
    ensures var p := SearchPrefix(DevisConfig, year);
            GenererNumeroDevis(year, [p + "999", p + "1000"]) == p + "1000"
  {
    var p := SearchPrefix(DevisConfig, year);
    var existing := [p + "999", p + "1000"];
    SequenceAfterNineHundredNinetyNine(year);
    ShippedConfigsAreDefaultShaped();
    Numerals();
  }

  /** The string-greatest of "…-999" and "…-1000" is "…-999", so the next
      sequence number is 1000. */
  lemma SequenceAfterNineHundredNinetyNine(year: nat)
    ensures var p := SearchPrefix(DevisConfig, year);
            SequenceNumber(DevisConfig, year, [p + "999", p + "1000"]) == 1000
  {
    var p := SearchPrefix(DevisConfig, year);
    var a, b := p + "999", p + "1000";
    GreaterOfTwo(p, "999", "1000");
    NextAfterGreatest(DevisConfig, year, [a, b], a);
    SearchPrefixEndsWithDash(DevisConfig, year);
    LastSegmentAfterDash(p, "999");
    Numerals();
  }

  /** "…-999" is the string-greatest of the two numbers. */
  lemma GreaterOfTwo(p: string, u: string, v: string)
    requires LexLe(v, u)
    ensures var a, b := p + u, p + v;
            && a in [a, b] && StartsWith(a, p)
            && forall x :: x in [a, b] && StartsWith(x, p) ==> LexLe(x, a)
  {
    var a, b := p + u, p + v;
    LexLeTotal(a, a);
    LexLeCommonPrefix(p, v, u);
  }

  // ---------------------------------------------------------------------------
  // Corrected generator: the greatest sequence number by value
  // ---------------------------------------------------------------------------

  /** The greatest trailing sequence number among the matches, 0 if none. */
  function MaxSequence(existing: seq<string>, p: string): (m: nat)
    ensures forall x :: x in existing && StartsWith(x, p) ==> IntCast(LastSegment(x)) <= m
    ensures m > 0 ==> exists x :: x in existing && StartsWith(x, p) && IntCast(LastSegment(x)) == m
  {
    if existing == [] then 0
    else
      var init := existing[..|existing| - 1];
      var x := existing[|existing| - 1];
      assert existing == init + [x];
      var rest := MaxSequence(init, p);
      if StartsWith(x, p) && IntCast(LastSegment(x)) > rest then IntCast(LastSegment(x)) else rest
  }

  function SequenceNumberByValue(cfg: NumberingConfig, year: nat, existing: seq<string>): (n: nat)
    ensures n >= 1
  {
    MaxSequence(existing, SearchPrefix(cfg, year)) + 1
  }

  function GenerateNumberByValue(cfg: NumberingConfig, year: nat, existing: seq<string>): string {
    Format(cfg.format, year, SequenceNumberByValue(cfg, year, existing), cfg.width)
  }

  /** With the default format, the by-value generator writes the search
      prefix followed by the padded sequence number. */
  lemma ByValueShape(cfg: NumberingConfig, year: nat, existing: seq<string>)
    requires DefaultShaped(cfg)
    ensures GenerateNumberByValue(cfg, year, existing)
            == SearchPrefix(cfg, year) + PadLeft(NatToString(SequenceNumberByValue(cfg, year, existing)), cfg.width)
  {
    assert cfg.format == (cfg.prefix + "-") + "{YYYY}" + "-" + "{NNN}";
    FormatDefaultShape(cfg.prefix + "-", year, SequenceNumberByValue(cfg, year, existing), cfg.width);
  }

  /** A number under prefix p whose sequence exceeds every stored one is not
      stored. */
  lemma BeyondMaxIsFresh(existing: seq<string>, p: string, s: string)
    requires StartsWith(s, p) && IntCast(LastSegment(s)) > MaxSequence(existing, p)
    ensures s !in existing
  {
  }

  /** Ordering by value, the generated number is fresh with no bound on the
      sequence number or on the form of the stored numbers. */
  lemma GeneratedNumberByValueFresh(cfg: NumberingConfig, year: nat, existing: seq<string>)
    requires DefaultShaped(cfg)
    ensures GenerateNumberByValue(cfg, year, existing) !in existing
  {
    var p := SearchPrefix(cfg, year);
    var n := SequenceNumberByValue(cfg, year, existing);
    var pad := PadLeft(NatToString(n), cfg.width);
    ByValueShape(cfg, year, existing);
    SegmentReadsBack(cfg, year, n);
    assert StartsWith(p + pad, p);
    BeyondMaxIsFresh(existing, p, p + pad);
  }

  /** On canonical stored numbers both generators agree. */
  lemma ByValueAgreesWhenCanonical(cfg: NumberingConfig, year: nat, existing: seq<string>)
    requires forall x :: x in existing && StartsWith(x, SearchPrefix(cfg, year))
                         ==> WellFormed(x, SearchPrefix(cfg, year), cfg.width)
    ensures SequenceNumber(cfg, year, existing) == SequenceNumberByValue(cfg, year, existing)
  {
    var p := SearchPrefix(cfg, year);
    SearchPrefixEndsWithDash(cfg, year);
    match LastNumber(existing, p)
    case None =>
    case Some(g) =>
      CanonicalLastIsMax(existing, p, cfg.width, g);
  }

  /** Among canonical numbers under one prefix, the greatest in string order
      carries the greatest sequence number. */
  lemma CanonicalLastIsMax(existing: seq<string>, p: string, w: nat, g: string)
    requires p != [] && p[|p| - 1] == '-'
    requires forall x :: x in existing && StartsWith(x, p) ==> WellFormed(x, p, w)
    requires g in existing && StartsWith(g, p)
    requires forall x :: x in existing && StartsWith(x, p) ==> LexLe(x, g)
    ensures Truthy(g) && MaxSequence(existing, p) == IntCast(LastSegment(g))
  {
    var m := MaxSequence(existing, p);
    CanonicalSegment(g, p, w);
    if m > IntCast(LastSegment(g)) {
      var x :| x in existing && StartsWith(x, p) && IntCast(LastSegment(x)) == m;
      CanonicalSegment(x, p, w);
      LexLeCommonPrefix(p, x[|p|..], g[|p|..]);
      LexLeDigits(x[|p|..], g[|p|..]);
      assert false;
    }
  }
}
