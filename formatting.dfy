/** Identifier formatting: format_telephone, format_siret and format_iban of
    app/Helpers/EntrepriseHelper.php. Characters stand for the bytes PHP
    works on; the patterns have no Unicode flag, so \d and \w are ASCII. */
module Formatting {
  import opened Common

  // ---------------------------------------------------------------------------
  // Filtering characters
  // ---------------------------------------------------------------------------

  /** The characters of s that satisfy keep, in order. */
  function Filter(s: string, keep: char -> bool): (r: string)
    ensures |r| <= |s|
    ensures forall i :: 0 <= i < |r| ==> keep(r[i])
    ensures (forall i :: 0 <= i < |s| ==> keep(s[i])) ==> r == s
  {
    if s == [] then []
    else
      var init := Filter(s[..|s| - 1], keep);
      if keep(s[|s| - 1]) then init + [s[|s| - 1]] else init
  }

  lemma {:induction false} FilterConcat(a: string, b: string, keep: char -> bool)
    ensures Filter(a + b, keep) == Filter(a, keep) + Filter(b, keep)
    decreases |b|
  {
    if b == [] {
      assert a + b == a;
    } else {
      var u := a + b;
      assert u[..|u| - 1] == a + b[..|b| - 1];
      FilterConcat(a, b[..|b| - 1], keep);
    }
  }

  lemma FilterNone(s: string, keep: char -> bool)
    requires forall i :: 0 <= i < |s| ==> !keep(s[i])
    ensures Filter(s, keep) == []
  {
    if s != [] {
      FilterNone(s[..|s| - 1], keep);
    }
  }

  /** preg_replace('/[^\d]/', '', s). */
  function KeepDigits(s: string): (r: string)
    ensures AllDigits(r) && |r| <= |s|
    ensures AllDigits(s) ==> r == s
  {
    Filter(s, IsDigit)
  }

  predicate NotSpace(c: char) {
    c != ' '
  }

  /** Deleting the spaces of a formatted identifier. */
  function RemoveSpaces(s: string): (r: string)
    ensures ' ' !in r
  {
    Filter(s, NotSpace)
  }

  // ---------------------------------------------------------------------------
  // Telephone and SIRET
  // ---------------------------------------------------------------------------

  /** format_telephone: exactly ten digits after cleaning are printed as five
      pairs separated by single spaces; anything else comes back unchanged. */
  function FormatTelephone(s: string): (r: string)
    ensures |KeepDigits(s)| != 10 ==> r == s
    ensures |KeepDigits(s)| == 10 ==> PairLayout(r, KeepDigits(s))
  {
    var d := KeepDigits(s);
    if |d| == 10 then
      var r := d[0..2] + " " + d[2..4] + " " + d[4..6] + " " + d[6..8] + " " + d[8..10];
      PairsLaidOut(d, r);
      r
    else s
  }

  /** Ten digits in five pairs: digit i at position i + i/2, a space at every
      third position. */
  ghost predicate PairLayout(r: string, d: string) {
    && |d| == 10 && |r| == 14
    && (forall j :: 0 <= j < 14 ==> (r[j] == ' ' <==> j % 3 == 2))
    && (forall i :: 0 <= i < 10 ==> r[i + i / 2] == d[i])
  }

  lemma PairsLaidOut(d: string, r: string)
    requires AllDigits(d) && |d| == 10
    requires r == d[0..2] + " " + d[2..4] + " " + d[4..6] + " " + d[6..8] + " " + d[8..10]
    ensures PairLayout(r, d)
  {
    assert r == [d[0], d[1], ' ', d[2], d[3], ' ', d[4], d[5], ' ', d[6], d[7], ' ', d[8], d[9]];
    forall i | 0 <= i < 10 ensures r[i + i / 2] == d[i] {
      assert r[i + i / 2] == d[i];
    }
    forall j | 0 <= j < 14 ensures r[j] == ' ' <==> j % 3 == 2 {
      if j % 3 != 2 {
        var i := j - j / 3;
        assert 0 <= i < 10 && i + i / 2 == j;
        assert IsDigit(d[i]);
      }
    }
  }

  /** format_siret: exactly fourteen digits after cleaning are printed in
      groups of 3, 3, 3 and 5 separated by single spaces; anything else comes
      back unchanged. */
  function FormatSiret(s: string): (r: string)
    ensures |KeepDigits(s)| != 14 ==> r == s
    ensures |KeepDigits(s)| == 14 ==> SiretLayout(r, KeepDigits(s))
  {
    var d := KeepDigits(s);
    if |d| == 14 then
      var r := d[0..3] + " " + d[3..6] + " " + d[6..9] + " " + d[9..14];
      SiretLaidOut(d, r);
      r
    else s
  }

  /** Fourteen digits in groups of 3, 3, 3 and 5 with spaces at 3, 7 and 11. */
  ghost predicate SiretLayout(r: string, d: string) {
    && |d| == 14 && |r| == 17
    && (forall j :: 0 <= j < 17 ==> (r[j] == ' ' <==> j == 3 || j == 7 || j == 11))
    && (forall i :: 0 <= i < 14 ==> r[i + (if i < 9 then i / 3 else 3)] == d[i])
  }

  lemma SiretLaidOut(d: string, r: string)
    requires AllDigits(d) && |d| == 14
    requires r == d[0..3] + " " + d[3..6] + " " + d[6..9] + " " + d[9..14]
    ensures SiretLayout(r, d)
  {
    forall i | 0 <= i < 14 ensures r[i + (if i < 9 then i / 3 else 3)] == d[i] {
    }
    forall j | 0 <= j < 17 ensures r[j] == ' ' <==> j == 3 || j == 7 || j == 11 {
      if j != 3 && j != 7 && j != 11 {
        var i := if j < 12 then j - j / 4 else j - 3;
        assert r[j] == d[i];
        assert IsDigit(d[i]);
      }
    }
  }

  /** Digits with single spaces between: cleaning removes exactly the spaces. */
  lemma {:induction false} KeepDigitsOfGroups(d: string, cuts: seq<nat>)
    requires AllDigits(d) && |cuts| >= 2 && cuts[0] == 0 && cuts[|cuts| - 1] == |d|
    requires forall k :: 0 <= k < |cuts| - 1 ==> cuts[k] <= cuts[k + 1]
    ensures KeepDigits(Join(d, cuts)) == d
    decreases |cuts|
  {
    var last := cuts[|cuts| - 2];
    var tail := d[last..];
    if |cuts| == 2 {
      assert Join(d, cuts) == d[0..|d|];
      assert d[0..|d|] == d;
    } else {
      var init := cuts[..|cuts| - 1];
      var head := d[..last];
      assert head + tail == d;
      assert forall k :: 0 <= k < |init| - 1 ==> init[k] <= init[k + 1];
      assert AllDigits(head);
      JoinPrefix(d, cuts);
      var j := Join(head, init);
      KeepDigitsOfGroups(head, init);
      assert Join(d, cuts) == j + (" " + tail);
      KeepDigitsAfterSpace(j, tail);
    }
  }

  /** Cleaning a space followed by digits keeps the digits. */
  lemma KeepDigitsAfterSpace(j: string, tail: string)
    requires AllDigits(tail)
    ensures KeepDigits(j + (" " + tail)) == KeepDigits(j) + tail
  {
    FilterConcat(j, " " + tail, IsDigit);
    FilterConcat(" ", tail, IsDigit);
    FilterNone(" ", IsDigit);
    assert KeepDigits(tail) == tail;
    assert KeepDigits(" " + tail) == tail;
  }

  /** The groups d[cuts[k]..cuts[k+1]] joined by single spaces. */
  function Join(d: string, cuts: seq<nat>): string
    requires |cuts| >= 2 && cuts[|cuts| - 1] <= |d|
    requires forall k :: 0 <= k < |cuts| - 1 ==> cuts[k] <= cuts[k + 1]
    decreases |cuts|
  {
    var last := cuts[|cuts| - 2];
    if |cuts| == 2 then d[cuts[0]..cuts[1]]
    else
      var init := cuts[..|cuts| - 1];
      assert forall k :: 0 <= k < |init| - 1 ==> init[k] <= init[k + 1];
      assert last <= |d| by { assert cuts[|cuts| - 2] <= cuts[|cuts| - 1]; }
      Join(d, init) + " " + d[last..cuts[|cuts| - 1]]
  }

  /** Joining on a prefix of d gives the same groups. */
  lemma {:induction false} JoinPrefix(d: string, cuts: seq<nat>)
    requires |cuts| >= 3 && cuts[|cuts| - 1] == |d|
    requires forall k :: 0 <= k < |cuts| - 1 ==> cuts[k] <= cuts[k + 1]
    ensures var init := cuts[..|cuts| - 1];
            var last := cuts[|cuts| - 2];
            Join(d, cuts) == Join(d[..last], init) + " " + d[last..]
  {
    var init := cuts[..|cuts| - 1];
    var last := cuts[|cuts| - 2];
    assert forall k :: 0 <= k < |init| - 1 ==> init[k] <= init[k + 1];
    JoinOnPrefix(d, init, last);
  }

  lemma {:induction false} JoinOnPrefix(d: string, cuts: seq<nat>, n: nat)
    requires |cuts| >= 2 && n <= |d| && cuts[|cuts| - 1] <= n
    requires forall k :: 0 <= k < |cuts| - 1 ==> cuts[k] <= cuts[k + 1]
    ensures Join(d, cuts) == Join(d[..n], cuts)
    decreases |cuts|
  {
    var c := cuts[|cuts| - 1];
    var last := cuts[|cuts| - 2];
    assert last <= c;
    assert d[..n][last..c] == d[last..c];
    if |cuts| > 2 {
      var init := cuts[..|cuts| - 1];
      assert forall k :: 0 <= k < |init| - 1 ==> init[k] <= init[k + 1];
      JoinOnPrefix(d, init, n);
      assert Join(d, cuts) == Join(d, init) + " " + d[last..c];
      assert Join(d[..n], cuts) == Join(d[..n], init) + " " + d[..n][last..c];
    }
  }

  lemma TelephoneIsJoin(d: string)
    requires |d| == 10
    ensures d[0..2] + " " + d[2..4] + " " + d[4..6] + " " + d[6..8] + " " + d[8..10]
         == Join(d, [0, 2, 4, 6, 8, 10])
  {
    assert [0, 2, 4, 6, 8, 10][..5] == [0, 2, 4, 6, 8];
    assert [0, 2, 4, 6, 8][..4] == [0, 2, 4, 6];
    assert [0, 2, 4, 6][..3] == [0, 2, 4];
    assert [0, 2, 4][..2] == [0, 2];
  }

  lemma SiretIsJoin(d: string)
    requires |d| == 14
    ensures d[0..3] + " " + d[3..6] + " " + d[6..9] + " " + d[9..14]
         == Join(d, [0, 3, 6, 9, 14])
  {
    assert [0, 3, 6, 9, 14][..4] == [0, 3, 6, 9];
    assert [0, 3, 6, 9][..3] == [0, 3, 6];
    assert [0, 3, 6][..2] == [0, 3];
  }

  /** Cleaning a formatted number gives back the digits it was made from, so
      formatting twice is formatting once. */
  lemma {:induction false} TelephoneIdempotent(s: string)
    ensures |KeepDigits(s)| == 10 ==> KeepDigits(FormatTelephone(s)) == KeepDigits(s)
    ensures FormatTelephone(FormatTelephone(s)) == FormatTelephone(s)
  {
    var d := KeepDigits(s);
    if |d| == 10 {
      TelephoneIsJoin(d);
      KeepDigitsOfGroups(d, [0, 2, 4, 6, 8, 10]);
    }
  }

  lemma {:induction false} SiretIdempotent(s: string)
    ensures |KeepDigits(s)| == 14 ==> KeepDigits(FormatSiret(s)) == KeepDigits(s)
    ensures FormatSiret(FormatSiret(s)) == FormatSiret(s)
  {
    var d := KeepDigits(s);
    if |d| == 14 {
      SiretIsJoin(d);
      KeepDigitsOfGroups(d, [0, 3, 6, 9, 14]);
    }
  }

  // ---------------------------------------------------------------------------
  // IBAN
  // ---------------------------------------------------------------------------

  /** \w without the Unicode flag: ASCII letters, digits and the underscore. */
  predicate IsWordChar(c: char) {
    'A' <= c <= 'Z' || 'a' <= c <= 'z' || '0' <= c <= '9' || c == '_'
  }

  /** strtoupper on one byte: only ASCII letters change. */
  function ToUpper(c: char): (u: char)
    ensures IsWordChar(c) ==> IsWordChar(u) && !('a' <= u <= 'z')
    ensures !('a' <= c <= 'z') ==> u == c
  {
    if 'a' <= c <= 'z' then (c as int - 'a' as int + 'A' as int) as char else c
  }

  predicate IsIbanChar(c: char) {
    IsWordChar(c) && !('a' <= c <= 'z')
  }

  function Upper(s: string): (r: string)
    ensures |r| == |s| && forall i :: 0 <= i < |s| ==> r[i] == ToUpper(s[i])
  {
    if s == [] then [] else Upper(s[..|s| - 1]) + [ToUpper(s[|s| - 1])]
  }

  /** strtoupper(preg_replace('/[^\w]/', '', s)). */
  function CleanIban(s: string): (r: string)
    ensures forall i :: 0 <= i < |r| ==> IsIbanChar(r[i])
    ensures (forall i :: 0 <= i < |s| ==> IsIbanChar(s[i])) ==> r == s
  {
    var w := Filter(s, IsWordChar);
    var r := Upper(w);
    assert (forall i :: 0 <= i < |s| ==> IsIbanChar(s[i])) ==> r == s by {
      if forall i :: 0 <= i < |s| ==> IsIbanChar(s[i]) {
        assert w == s;
        assert forall i :: 0 <= i < |s| ==> r[i] == s[i];
      }
    }
    r
  }

  /** PHP's chunk_split(s, 4, ' '): every group of four characters, and a
      shorter last group, followed by a space; a string shorter than four
      characters (the empty one included) comes back with one space added. */
  function ChunkSplit(s: string): (r: string)
    ensures |r| == |s| + (if |s| == 0 then 1 else (|s| + 3) / 4)
    ensures forall i :: 0 <= i < |s| ==> r[i + i / 4] == s[i]
    ensures ' ' !in s ==> forall j :: 0 <= j < |r| ==> (r[j] == ' ' <==> (j % 5 == 4 || j == |r| - 1))
    ensures r[|r| - 1] == ' '
    decreases |s|
  {
    if |s| <= 4 then
      ChunkLast(s);
      s + " "
    else
      var rest := ChunkSplit(s[4..]);
      var r := s[..4] + " " + rest;
      ChunkLayout(s, rest, r);
      r
  }

  /** A string of at most four characters is a single chunk. */
  lemma ChunkLast(s: string)
    requires |s| <= 4
    ensures forall i :: 0 <= i < |s| ==> (s + " ")[i + i / 4] == s[i]
    ensures ' ' !in s ==> forall j :: 0 <= j < |s| + 1 ==> ((s + " ")[j] == ' ' <==> (j % 5 == 4 || j == |s|))
  {
    forall i | 0 <= i < |s|
      ensures (s + " ")[i + i / 4] == s[i]
    {
      assert i / 4 == 0;
    }
  }

  /** One more leading chunk shifts the layout of the rest by five places. */
  lemma ChunkLayout(s: string, rest: string, r: string)
    requires |s| > 4 && r == s[..4] + " " + rest
    requires |rest| == |s| - 4 + (|s| - 4 + 3) / 4
    requires forall i :: 0 <= i < |s| - 4 ==> rest[i + i / 4] == s[4..][i]
    requires ' ' !in s[4..] ==> forall j :: 0 <= j < |rest| ==> (rest[j] == ' ' <==> (j % 5 == 4 || j == |rest| - 1))
    requires rest[|rest| - 1] == ' '
    ensures |r| == |s| + (|s| + 3) / 4 && r[|r| - 1] == ' '
    ensures forall i :: 0 <= i < |s| ==> r[i + i / 4] == s[i]
    ensures ' ' !in s ==> forall j :: 0 <= j < |r| ==> (r[j] == ' ' <==> (j % 5 == 4 || j == |r| - 1))
  {
    forall i | 0 <= i < |s| ensures r[i + i / 4] == s[i] {
      if i >= 4 {
        var k := i - 4;
        assert i + i / 4 == 5 + k + k / 4;
        assert r[5 + k + k / 4] == rest[k + k / 4];
        assert s[4..][k] == s[i];
      }
    }
    if ' ' !in s {
      assert ' ' !in s[4..] by {
        forall j | 0 <= j < |s| - 4 ensures s[4..][j] != ' ' { assert s[4..][j] == s[j + 4]; }
      }
      forall j | 0 <= j < |r| ensures r[j] == ' ' <==> (j % 5 == 4 || j == |r| - 1) {
        if j < 4 {
          assert r[j] == s[j];
        } else if j >= 5 {
          assert r[j] == rest[j - 5];
        }
      }
    }
  }

  /** format_iban. */
  function FormatIban(s: string): (r: string)
    ensures var n := CleanIban(s);
            && |r| == |n| + (if |n| == 0 then 1 else (|n| + 3) / 4)
            && (forall i :: 0 <= i < |n| ==> r[i + i / 4] == n[i])
            && (forall j :: 0 <= j < |r| ==> (r[j] == ' ' <==> (j % 5 == 4 || j == |r| - 1)))
  {
    var n := CleanIban(s);
    assert ' ' !in n by {
      forall i | 0 <= i < |n| ensures n[i] != ' ' { assert IsIbanChar(n[i]); }
    }
    ChunkSplit(n)
  }

  /** Keeping anything but the spaces undoes the chunking. */
  lemma {:induction false} ChunkSplitFilter(s: string, keep: char -> bool)
    requires forall i :: 0 <= i < |s| ==> keep(s[i])
    requires !keep(' ')
    ensures Filter(ChunkSplit(s), keep) == s
    decreases |s|
  {
    FilterNone(" ", keep);
    if |s| <= 4 {
      FilterConcat(s, " ", keep);
    } else {
      var rest := ChunkSplit(s[4..]);
      var head := s[..4];
      assert forall i :: 0 <= i < |head| ==> keep(head[i]);
      assert forall i :: 0 <= i < |s[4..]| ==> keep(s[4..][i]);
      ChunkSplitFilter(s[4..], keep);
      FilterConcat(head, " ", keep);
      FilterConcat(head + " ", rest, keep);
      assert head + s[4..] == s;
    }
  }

  /** Deleting the spaces gives back the cleaned IBAN. */
  lemma IbanUngroups(s: string)
    ensures RemoveSpaces(FormatIban(s)) == CleanIban(s)
  {
    var n := CleanIban(s);
    assert forall i :: 0 <= i < |n| ==> NotSpace(n[i]) by {
      forall i | 0 <= i < |n| ensures NotSpace(n[i]) { assert IsIbanChar(n[i]); }
    }
    ChunkSplitFilter(n, NotSpace);
  }

  /** Formatting an already formatted IBAN changes nothing. */
  lemma IbanIdempotent(s: string)
    ensures FormatIban(FormatIban(s)) == FormatIban(s)
  {
    var n := CleanIban(s);
    assert forall i :: 0 <= i < |n| ==> IsWordChar(n[i]) by {
      forall i | 0 <= i < |n| ensures IsWordChar(n[i]) { assert IsIbanChar(n[i]); }
    }
    assert !IsWordChar(' ');
    ChunkSplitFilter(n, IsWordChar);
    UpperIdentity(n);
  }

  lemma UpperIdentity(s: string)
    requires forall i :: 0 <= i < |s| ==> IsIbanChar(s[i])
    ensures Upper(s) == s
  {
  }
}
