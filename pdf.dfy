/** The data preparation of app/Services/PdfService.php (not the rendering):
    lines grouped by category and by VAT rate with per-rate totals, the valid
    payments of an invoice in date order, the revenue report totals and the
    cheque deposit slip totals. Amounts are integer cents. */
module Pdf {
  import opened Common
  import opened Schema

  // ---------------------------------------------------------------------------
  // Sums
  // ---------------------------------------------------------------------------

  /** Collection::sum over an amount of each element. */
  function Total<T>(xs: seq<T>, amount: T -> int): int {
    if xs == [] then 0 else Total(xs[..|xs| - 1], amount) + amount(xs[|xs| - 1])
  }

  lemma {:induction false} TotalConcat<T>(a: seq<T>, b: seq<T>, amount: T -> int)
    ensures Total(a + b, amount) == Total(a, amount) + Total(b, amount)
    decreases |b|
  {
    if b == [] {
      assert a + b == a;
    } else {
      assert (a + b)[..|a + b| - 1] == a + b[..|b| - 1];
      TotalConcat(a, b[..|b| - 1], amount);
    }
  }

  lemma {:induction false} TotalNonNegative<T>(xs: seq<T>, amount: T -> int)
    requires forall i :: 0 <= i < |xs| ==> amount(xs[i]) >= 0
    ensures Total(xs, amount) >= 0
  {
    if xs != [] {
      TotalNonNegative(xs[..|xs| - 1], amount);
    }
  }

  // ---------------------------------------------------------------------------
  // groupBy
  // ---------------------------------------------------------------------------

  /** A grouped collection: the groups in order of first appearance. */
  type Groups<K, T> = seq<(K, seq<T>)>

  predicate DistinctKeys<K(==), T>(gs: Groups<K, T>) {
    forall i, j :: 0 <= i < j < |gs| ==> gs[i].0 != gs[j].0
  }

  predicate HasGroup<K(==), T>(gs: Groups<K, T>, k: K) {
    exists i :: 0 <= i < |gs| && gs[i].0 == k
  }

  /** Every element of the groups, group after group. */
  function Flatten<K, T>(gs: Groups<K, T>): seq<T> {
    if gs == [] then [] else gs[0].1 + Flatten(gs[1..])
  }

  /** The sum of an amount over every group. */
  function GroupsTotal<K, T>(gs: Groups<K, T>, amount: T -> int): int {
    if gs == [] then 0 else Total(gs[0].1, amount) + GroupsTotal(gs[1..], amount)
  }

  /** The elements of xs whose key is k, in order. */
  function Select<T, K(==)>(xs: seq<T>, key: T -> K, k: K): (r: seq<T>)
    ensures forall i :: 0 <= i < |r| ==> key(r[i]) == k
  {
    if xs == [] then []
    else Select(xs[..|xs| - 1], key, k) + (if key(xs[|xs| - 1]) == k then [xs[|xs| - 1]] else [])
  }

  /** Adds x to the group of key k, opening a new group at the end when
      there is none. */
  function Insert<K(==), T>(gs: Groups<K, T>, k: K, x: T): (r: Groups<K, T>)
    ensures multiset(Flatten(r)) == multiset(Flatten(gs)) + multiset{x}
  {
    if gs == [] then
      assert Flatten([(k, [x])]) == [x];
      [(k, [x])]
    else if gs[0].0 == k then
      var r := [(k, gs[0].1 + [x])] + gs[1..];
      assert r[1..] == gs[1..];
      r
    else
      var r := [gs[0]] + Insert(gs[1..], k, x);
      assert r[1..] == Insert(gs[1..], k, x);
      r
  }

  /** Inserting x adds its amount to the groups' total. */
  lemma {:induction false} InsertTotal<K, T>(gs: Groups<K, T>, k: K, x: T, amount: T -> int)
    ensures GroupsTotal(Insert(gs, k, x), amount) == GroupsTotal(gs, amount) + amount(x)
  {
    if gs == [] {
      assert [x][..0] == [];
      assert Total([x], amount) == amount(x);
      assert [(k, [x])][1..] == [];
      assert Insert(gs, k, x) == [(k, [x])];
    } else {
      var r := Insert(gs, k, x);
      if gs[0].0 == k {
        assert (gs[0].1 + [x])[..|gs[0].1|] == gs[0].1;
        assert r[1..] == gs[1..];
      } else {
        InsertTotal(gs[1..], k, x, amount);
        assert r[1..] == Insert(gs[1..], k, x);
      }
    }
  }

  /** Without a group for k, Insert opens one at the end. */
  lemma {:induction false} InsertNew<K, T>(gs: Groups<K, T>, k: K, x: T)
    requires !HasGroup(gs, k)
    ensures Insert(gs, k, x) == gs + [(k, [x])]
  {
    if gs != [] {
      assert gs[0].0 != k;
      assert !HasGroup(gs[1..], k) by {
        forall i | 0 <= i < |gs| - 1 ensures gs[1..][i].0 != k {
          assert gs[1..][i] == gs[i + 1];
        }
      }
      InsertNew(gs[1..], k, x);
      assert gs == [gs[0]] + gs[1..];
    }
  }

  /** With a group for k, Insert appends x to the first such group and
      changes nothing else. */
  lemma {:induction false} InsertExisting<K, T>(gs: Groups<K, T>, k: K, x: T, n: nat)
    requires n < |gs| && gs[n].0 == k
    requires forall i :: 0 <= i < n ==> gs[i].0 != k
    ensures Insert(gs, k, x) == gs[n := (k, gs[n].1 + [x])]
  {
    if n > 0 {
      InsertExisting(gs[1..], k, x, n - 1);
      assert gs == [gs[0]] + gs[1..];
    }
  }

  /** Insert keeps the keys distinct and adds only x. */
  lemma InsertShape<K, T>(gs: Groups<K, T>, k: K, x: T)
    requires DistinctKeys(gs)
    ensures var r := Insert(gs, k, x);
            && DistinctKeys(r)
            && (HasGroup(gs, k) ==> exists n :: 0 <= n < |gs| && gs[n].0 == k && r == gs[n := (k, gs[n].1 + [x])])
            && (!HasGroup(gs, k) ==> r == gs + [(k, [x])])
  {
    if HasGroup(gs, k) {
      var n :| 0 <= n < |gs| && gs[n].0 == k;
      InsertExisting(gs, k, x, n);
    } else {
      InsertNew(gs, k, x);
    }
  }

  /** Collection::groupBy(key). */
  function GroupBy<T, K(==)>(xs: seq<T>, key: T -> K): (gs: Groups<K, T>)
    ensures multiset(Flatten(gs)) == multiset(xs)
  {
    if xs == [] then []
    else
      var init := xs[..|xs| - 1];
      var x := xs[|xs| - 1];
      assert xs == init + [x];
      Insert(GroupBy(init, key), key(x), x)
  }

  /** Summing group by group gives the sum over the whole collection. */
  lemma {:induction false} GroupByTotal<T, K>(xs: seq<T>, key: T -> K, amount: T -> int)
    ensures GroupsTotal(GroupBy(xs, key), amount) == Total(xs, amount)
  {
    if xs != [] {
      var init := xs[..|xs| - 1];
      GroupByTotal(init, key, amount);
      InsertTotal(GroupBy(init, key), key(xs[|xs| - 1]), xs[|xs| - 1], amount);
    }
  }

  /** Some element of xs has key k. */
  predicate KeyOccurs<T, K(==)>(xs: seq<T>, key: T -> K, k: K) {
    exists i :: 0 <= i < |xs| && key(xs[i]) == k
  }

  lemma {:induction false} GroupByDistinct<T, K>(xs: seq<T>, key: T -> K)
    ensures DistinctKeys(GroupBy(xs, key))
  {
    if xs != [] {
      GroupByDistinct(xs[..|xs| - 1], key);
      InsertShape(GroupBy(xs[..|xs| - 1], key), key(xs[|xs| - 1]), xs[|xs| - 1]);
    }
  }

  lemma KeyOccursSnoc<T, K>(init: seq<T>, x: T, key: T -> K, k: K)
    ensures KeyOccurs(init + [x], key, k) <==> KeyOccurs(init, key, k) || key(x) == k
  {
    var xs := init + [x];
    if KeyOccurs(init, key, k) {
      var i :| 0 <= i < |init| && key(init[i]) == k;
      assert key(xs[i]) == k;
    }
    if KeyOccurs(xs, key, k) && key(x) != k {
      var i :| 0 <= i < |xs| && key(xs[i]) == k;
      assert key(init[i]) == k;
    }
    if key(x) == k {
      assert key(xs[|xs| - 1]) == k;
    }
  }

  /** After Insert there is a group for k exactly when there was one or k is
      the key inserted under. */
  lemma InsertHasGroup<K, T>(g: Groups<K, T>, kx: K, x: T, k: K)
    requires DistinctKeys(g)
    ensures HasGroup(Insert(g, kx, x), k) <==> HasGroup(g, k) || kx == k
  {
    InsertShape(g, kx, x);
    var gs := Insert(g, kx, x);
    if HasGroup(g, kx) {
      var n :| 0 <= n < |g| && g[n].0 == kx && gs == g[n := (kx, g[n].1 + [x])];
      if HasGroup(g, k) {
        var j :| 0 <= j < |g| && g[j].0 == k;
        assert gs[j].0 == k;
      }
      if HasGroup(gs, k) {
        var j :| 0 <= j < |gs| && gs[j].0 == k;
        assert g[j].0 == k;
      }
    } else {
      assert gs == g + [(kx, [x])];
      if HasGroup(g, k) {
        var j :| 0 <= j < |g| && g[j].0 == k;
        assert gs[j].0 == k;
      }
      if HasGroup(gs, k) && kx != k {
        var j :| 0 <= j < |gs| && gs[j].0 == k;
        assert g[j].0 == k;
      }
      if kx == k {
        assert gs[|g|].0 == k;
      }
    }
  }

  /** There is a group for a key exactly when some element has that key. */
  lemma {:induction false} GroupByKeys<T, K>(xs: seq<T>, key: T -> K, k: K)
    ensures HasGroup(GroupBy(xs, key), k) <==> KeyOccurs(xs, key, k)
  {
    if xs != [] {
      var init := xs[..|xs| - 1];
      var x := xs[|xs| - 1];
      assert xs == init + [x];
      KeyOccursSnoc(init, x, key, k);
      GroupByKeys(init, key, k);
      GroupByDistinct(init, key);
      InsertHasGroup(GroupBy(init, key), key(x), x, k);
    }
  }

  /** Each group holds exactly the elements with its key, in order. */
  lemma {:induction false} GroupBySelect<T, K>(xs: seq<T>, key: T -> K)
    ensures var gs := GroupBy(xs, key);
            forall i :: 0 <= i < |gs| ==> gs[i].1 == Select(xs, key, gs[i].0) && gs[i].1 != []
  {
    if xs != [] {
      var init := xs[..|xs| - 1];
      var x := xs[|xs| - 1];
      var g := GroupBy(init, key);
      GroupBySelect(init, key);
      GroupByDistinct(init, key);
      InsertShape(g, key(x), x);
      var gs := GroupBy(xs, key);
      assert gs == Insert(g, key(x), x);
      assert var h := GroupBy(init, key); forall j :: 0 <= j < |h| ==> h[j].1 == Select(init, key, h[j].0) && h[j].1 != [];
      assert forall j :: 0 <= j < |g| ==> g[j].1 == Select(init, key, g[j].0);
      forall i | 0 <= i < |gs|
        ensures gs[i].1 == Select(xs, key, gs[i].0) && gs[i].1 != []
      {
        assert Select(xs, key, gs[i].0) == Select(init, key, gs[i].0) + (if key(x) == gs[i].0 then [x] else []);
        if HasGroup(g, key(x)) {
          var n :| 0 <= n < |g| && g[n].0 == key(x) && gs == g[n := (key(x), g[n].1 + [x])];
          if i != n {
            assert gs[i] == g[i] && g[i].0 != key(x);
            assert gs[i].1 == Select(init, key, g[i].0);
          } else {
            assert gs[i] == (key(x), g[n].1 + [x]);
            assert g[n].1 == Select(init, key, g[n].0);
          }
        } else {
          assert gs == g + [(key(x), [x])];
          if i == |g| {
            GroupByKeys(init, key, key(x));
            SelectAbsent(init, key, key(x));
          } else {
            assert gs[i] == g[i];
          }
        }
      }
    }
  }

  /** groupBy partitions: keys are distinct, every element's key has a group,
      and each group holds exactly the elements with its key, in order. */
  lemma GroupByPartition<T, K>(xs: seq<T>, key: T -> K)
    ensures var gs := GroupBy(xs, key);
            && DistinctKeys(gs)
            && (forall i :: 0 <= i < |gs| ==> gs[i].1 == Select(xs, key, gs[i].0) && gs[i].1 != [])
            && (forall k :: HasGroup(gs, k) <==> KeyOccurs(xs, key, k))
  {
    GroupByDistinct(xs, key);
    GroupBySelect(xs, key);
    forall k ensures HasGroup(GroupBy(xs, key), k) <==> KeyOccurs(xs, key, k) {
      GroupByKeys(xs, key, k);
    }
  }

  /** No element has a key nobody has. */
  lemma {:induction false} SelectAbsent<T, K>(xs: seq<T>, key: T -> K, k: K)
    requires forall i :: 0 <= i < |xs| ==> key(xs[i]) != k
    ensures Select(xs, key, k) == []
  {
    if xs != [] {
      SelectAbsent(xs[..|xs| - 1], key, k);
    }
  }

  /** Each element lands in exactly one group. */
  lemma ExactlyOneGroup<T, K>(xs: seq<T>, key: T -> K, x: T)
    requires x in xs
    ensures var gs := GroupBy(xs, key);
            && (exists i :: 0 <= i < |gs| && x in gs[i].1)
            && (forall i, j :: 0 <= i < |gs| && 0 <= j < |gs| && x in gs[i].1 && x in gs[j].1 ==> i == j)
  {
    var gs := GroupBy(xs, key);
    GroupByPartition(xs, key);
    var n :| 0 <= n < |xs| && xs[n] == x;
    assert HasGroup(gs, key(x));
    var i :| 0 <= i < |gs| && gs[i].0 == key(x);
    SelectMember(xs, key, n);
    forall i, j | 0 <= i < |gs| && 0 <= j < |gs| && x in gs[i].1 && x in gs[j].1
      ensures i == j
    {
      var a :| 0 <= a < |gs[i].1| && gs[i].1[a] == x;
      var b :| 0 <= b < |gs[j].1| && gs[j].1[b] == x;
      assert gs[i].0 == key(x) == gs[j].0;
    }
  }

  lemma {:induction false} SelectMember<T, K>(xs: seq<T>, key: T -> K, n: nat)
    requires n < |xs|
    ensures xs[n] in Select(xs, key, key(xs[n]))
  {
    var init := xs[..|xs| - 1];
    if n < |init| {
      SelectMember(init, key, n);
      assert init[n] == xs[n];
    }
  }

  // ---------------------------------------------------------------------------
  // Document data (preparerDonneesDevis, preparerDonneesFacture)
  // ---------------------------------------------------------------------------

  /** groupBy('categorie'): a null category is grouped under ''. */
  function CategorieKey(l: Ligne): string {
    l.categorie.GetOr("")
  }

  function TauxKey(l: Ligne): int {
    l.tauxTva
  }

  function Ht(l: Ligne): int { l.montantHt }
  function Tva(l: Ligne): int { l.montantTva }
  function Ttc(l: Ligne): int { l.montantTtc }

  /** The three sums of one VAT group. */
  function Totaux(ls: seq<Ligne>): LineAmounts {
    LineAmounts(Total(ls, Ht), Total(ls, Tva), Total(ls, Ttc))
  }

  /** The map over the VAT groups. */
  function TotauxParTaux(gs: Groups<int, Ligne>): (r: seq<(int, LineAmounts)>)
    ensures |r| == |gs|
    ensures forall i :: 0 <= i < |r| ==> r[i] == (gs[i].0, Totaux(gs[i].1))
  {
    if gs == [] then [] else [(gs[0].0, Totaux(gs[0].1))] + TotauxParTaux(gs[1..])
  }

  /** Component-wise sum of per-rate totals. */
  function SumAmounts(ts: seq<(int, LineAmounts)>): LineAmounts {
    if ts == [] then LineAmounts(0, 0, 0)
    else
      var rest := SumAmounts(ts[1..]);
      LineAmounts(ts[0].1.ht + rest.ht, ts[0].1.tva + rest.tva, ts[0].1.ttc + rest.ttc)
  }

  lemma {:induction false} SumOfTotaux(gs: Groups<int, Ligne>)
    ensures SumAmounts(TotauxParTaux(gs)) == LineAmounts(GroupsTotal(gs, Ht), GroupsTotal(gs, Tva), GroupsTotal(gs, Ttc))
  {
    if gs != [] {
      SumOfTotaux(gs[1..]);
      assert TotauxParTaux(gs)[1..] == TotauxParTaux(gs[1..]);
    }
  }

  /** What the quote and invoice templates receive, besides the records
      themselves. */
  datatype DocumentData = DocumentData(
    lignes: seq<Ligne>,
    lignesParCategorie: Groups<string, Ligne>,
    totauxTva: seq<(int, LineAmounts)>,
    paiements: seq<Paiement>)

  /** The per-rate totals add up to the document's line totals, and both
      groupings partition the lines. */
  function PrepareLines(ls: seq<Ligne>, paiements: seq<Paiement>): (d: DocumentData)
    ensures d.lignes == ls && d.paiements == paiements
    ensures SumAmounts(d.totauxTva) == Totaux(ls)
    ensures multiset(Flatten(d.lignesParCategorie)) == multiset(ls)
    ensures DistinctKeys(d.lignesParCategorie)
    ensures forall i :: 0 <= i < |d.lignesParCategorie| ==>
              d.lignesParCategorie[i].1 == Select(ls, CategorieKey, d.lignesParCategorie[i].0)
    ensures forall i, j :: 0 <= i < j < |d.totauxTva| ==> d.totauxTva[i].0 != d.totauxTva[j].0
  {
    var parTaux := GroupBy(ls, TauxKey);
    GroupByPartition(ls, TauxKey);
    GroupByPartition(ls, CategorieKey);
    SumOfTotaux(parTaux);
    GroupByTotal(ls, TauxKey, Ht);
    GroupByTotal(ls, TauxKey, Tva);
    GroupByTotal(ls, TauxKey, Ttc);
    DocumentData(ls, GroupBy(ls, CategorieKey), TotauxParTaux(parTaux), paiements)
  }

  /** preparerDonneesDevis: the quote's lines; a quote has no payments. */
  function PreparerDonneesDevis(lignes: seq<Ligne>): (d: DocumentData)
    ensures d.paiements == [] && SumAmounts(d.totauxTva) == Totaux(lignes)
  {
    PrepareLines(lignes, [])
  }

  /** preparerDonneesFacture: the invoice's lines and its valid payments in
      date order. */
  function PreparerDonneesFacture(lignes: seq<Ligne>, paiements: seq<Paiement>): (d: DocumentData)
    ensures SumAmounts(d.totauxTva) == Totaux(lignes)
    ensures forall i :: 0 <= i < |d.paiements| ==> d.paiements[i].statut == Valide
    ensures SortedByDate(d.paiements)
    ensures multiset(d.paiements) == multiset(ValidOnly(paiements))
  {
    PrepareLines(lignes, ValidByDate(paiements))
  }

  // ---------------------------------------------------------------------------
  // Valid payments by date
  // ---------------------------------------------------------------------------

  /** where('statut', 'valide'). */
  function ValidOnly(ps: seq<Paiement>): (r: seq<Paiement>)
    ensures forall i :: 0 <= i < |r| ==> r[i].statut == Valide
    ensures forall p :: p in ps && p.statut == Valide <==> p in r
  {
    if ps == [] then []
    else
      var p := ps[|ps| - 1];
      ValidOnly(ps[..|ps| - 1]) + (if p.statut == Valide then [p] else [])
  }

  predicate SortedByDate(ps: seq<Paiement>) {
    forall i, j :: 0 <= i < j < |ps| ==> ps[i].datePaiement <= ps[j].datePaiement
  }

  /** Inserts p after every payment dated on or before it. */
  function InsertByDate(s: seq<Paiement>, p: Paiement): (r: seq<Paiement>)
    requires SortedByDate(s)
    ensures SortedByDate(r)
    ensures multiset(r) == multiset(s) + multiset{p}
    ensures |r| == |s| + 1 && (r[0] == p || (s != [] && r[0] == s[0]))
  {
    if s == [] then [p]
    else if p.datePaiement < s[0].datePaiement then [p] + s
    else
      var rest := InsertByDate(s[1..], p);
      assert s == [s[0]] + s[1..];
      [s[0]] + rest
  }

  /** orderBy('date_paiement'); payments on the same date keep their
      order. */
  function SortByDate(ps: seq<Paiement>): (r: seq<Paiement>)
    ensures SortedByDate(r)
    ensures multiset(r) == multiset(ps)
  {
    if ps == [] then []
    else
      assert ps == ps[..|ps| - 1] + [ps[|ps| - 1]];
      InsertByDate(SortByDate(ps[..|ps| - 1]), ps[|ps| - 1])
  }

  function ValidByDate(ps: seq<Paiement>): (r: seq<Paiement>)
    ensures SortedByDate(r) && multiset(r) == multiset(ValidOnly(ps))
    ensures forall i :: 0 <= i < |r| ==> r[i].statut == Valide
  {
    var v := ValidOnly(ps);
    var r := SortByDate(v);
    assert forall i :: 0 <= i < |r| ==> r[i] in multiset(v);
    r
  }

  /** A payment that is not valid never appears, and every valid one does,
      as often as it was recorded. */
  lemma ValidByDateMembers(ps: seq<Paiement>, p: Paiement)
    ensures p in ValidByDate(ps) <==> p in ps && p.statut == Valide
  {
    var r := ValidByDate(ps);
    assert p in r <==> p in multiset(r);
    assert p in ValidOnly(ps) <==> p in multiset(ValidOnly(ps));
  }

  // ---------------------------------------------------------------------------
  // genererRapportCA and genererBordereauRemise
  // ---------------------------------------------------------------------------

  datatype ReportTotals = ReportTotals(totalHt: int, totalTtc: int, totalPaye: int, totalImpaye: int, nombreFactures: nat)

  function FHt(f: Facture): int { f.montantHt }
  function FTtc(f: Facture): int { f.montantTtc }
  function FPaye(f: Facture): int { f.montantPaye }
  function FStatut(f: Facture): FactureStatut { f.statut }

  /** The 'totaux' block of the revenue report. */
  function RapportTotals(fs: seq<Facture>): (r: ReportTotals)
    ensures r.totalImpaye == r.totalTtc - r.totalPaye
    ensures r.nombreFactures == |fs|
    ensures fs == [] ==> r == ReportTotals(0, 0, 0, 0, 0)
  {
    var ttc := Total(fs, FTtc);
    var paye := Total(fs, FPaye);
    ReportTotals(Total(fs, FHt), ttc, paye, ttc - paye, |fs|)
  }

  /** The report of two batches of invoices is the sum of their reports. */
  lemma RapportAdditive(a: seq<Facture>, b: seq<Facture>)
    ensures var ra := RapportTotals(a);
            var rb := RapportTotals(b);
            RapportTotals(a + b) == ReportTotals(ra.totalHt + rb.totalHt, ra.totalTtc + rb.totalTtc,
                                                 ra.totalPaye + rb.totalPaye, ra.totalImpaye + rb.totalImpaye,
                                                 ra.nombreFactures + rb.nombreFactures)
  {
    TotalConcat(a, b, FHt);
    TotalConcat(a, b, FTtc);
    TotalConcat(a, b, FPaye);
  }

  /** Nothing is reported unpaid below zero while no invoice is overpaid. */
  lemma ImpayeNonNegative(fs: seq<Facture>)
    requires forall i :: 0 <= i < |fs| ==> fs[i].montantPaye <= fs[i].montantTtc
    ensures RapportTotals(fs).totalImpaye >= 0
  {
    var diff := (f: Facture) => f.montantTtc - f.montantPaye;
    TotalNonNegative(fs, diff);
    TotalDifference(fs);
  }

  lemma {:induction false} TotalDifference(fs: seq<Facture>)
    ensures Total(fs, FTtc) - Total(fs, FPaye) == Total(fs, (f: Facture) => f.montantTtc - f.montantPaye)
  {
    if fs != [] {
      TotalDifference(fs[..|fs| - 1]);
    }
  }

  /** The report's invoices grouped by statut, a partition as any groupBy. */
  function FacturesParStatut(fs: seq<Facture>): (gs: Groups<FactureStatut, Facture>)
    ensures multiset(Flatten(gs)) == multiset(fs)
    ensures GroupsTotal(gs, FTtc) == RapportTotals(fs).totalTtc
  {
    GroupByTotal(fs, FStatut, FTtc);
    GroupBy(fs, FStatut)
  }

  datatype Bordereau = Bordereau(totalRemise: int, nombreCheques: nat)

  function Montant(p: Paiement): int { p.montant }

  /** The totals of a cheque deposit slip. */
  function BordereauRemise(ps: seq<Paiement>): (r: Bordereau)
    ensures r.nombreCheques == |ps|
    ensures ps == [] ==> r.totalRemise == 0
    ensures (forall i :: 0 <= i < |ps| ==> ps[i].montant >= 0) ==> r.totalRemise >= 0
  {
    TotalNonNegativeIf(ps);
    Bordereau(Total(ps, Montant), |ps|)
  }

  lemma TotalNonNegativeIf(ps: seq<Paiement>)
    ensures (forall i :: 0 <= i < |ps| ==> ps[i].montant >= 0) ==> Total(ps, Montant) >= 0
  {
    if forall i :: 0 <= i < |ps| ==> ps[i].montant >= 0 {
      TotalNonNegative(ps, Montant);
    }
  }

  /** Two slips deposited together total what they total apart. */
  lemma BordereauAdditive(a: seq<Paiement>, b: seq<Paiement>)
    ensures BordereauRemise(a + b).totalRemise == BordereauRemise(a).totalRemise + BordereauRemise(b).totalRemise
  {
    TotalConcat(a, b, Montant);
  }
}
