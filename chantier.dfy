/** The business rules of a project (chantier), app/Models/Chantier.php:
    the progress mean written back to avancement_global, lateness, the status
    mappings, and the billing ratios. Percentages and avancement_global
    (decimal:2) are in hundredths of a percent, the ratios (round(…, 1)) in
    tenths of a percent, money in cents; dates are integers on one time scale
    and the current time is an input. */
module Chantiers {
  import opened Common
  import opened Schema

  // ---------------------------------------------------------------------------
  // Progress
  // ---------------------------------------------------------------------------

  /** The mean of the etape percentages, stored with two decimals. */
  function MeanPercent(pourcentages: seq<int>): (m: int)
    requires |pourcentages| > 0
    ensures var n, s := |pourcentages|, Sum(pourcentages);
            s >= 0 ==> 2 * m * n - n <= 2 * s < 2 * m * n + n
  {
    RoundDiv(Sum(pourcentages), |pourcentages|)
  }

  /** Every percentage lies in 0..100 %. */
  predicate InRange(pourcentages: seq<int>) {
    forall i :: 0 <= i < |pourcentages| ==> 0 <= pourcentages[i] <= 10000
  }

  lemma {:induction false} SumInRange(pourcentages: seq<int>)
    requires InRange(pourcentages)
    ensures 0 <= Sum(pourcentages) <= 10000 * |pourcentages|
    decreases |pourcentages|
  {
    if pourcentages != [] {
      SumInRange(pourcentages[..|pourcentages| - 1]);
    }
  }

  /** The mean of percentages in 0..100 % is in 0..100 %. */
  lemma MeanInRange(pourcentages: seq<int>)
    requires |pourcentages| > 0 && InRange(pourcentages)
    ensures 0 <= MeanPercent(pourcentages) <= 10000
  {
    SumInRange(pourcentages);
    RoundDivUpper(Sum(pourcentages), 10000, |pourcentages|);
  }

  /** When every etape is at the same percentage, so is the chantier. */
  lemma {:induction false} MeanOfEqual(pourcentages: seq<int>, v: int)
    requires |pourcentages| > 0
    requires forall i :: 0 <= i < |pourcentages| ==> pourcentages[i] == v
    ensures MeanPercent(pourcentages) == v
  {
    SumOfEqual(pourcentages, v);
    RoundDivExact(v, |pourcentages|);
  }

  lemma {:induction false} SumOfEqual(xs: seq<int>, v: int)
    requires forall i :: 0 <= i < |xs| ==> xs[i] == v
    ensures Sum(xs) == v * |xs|
    decreases |xs|
  {
    if xs != [] {
      SumOfEqual(xs[..|xs| - 1], v);
    }
  }

  // ---------------------------------------------------------------------------
  // Status mappings
  // ---------------------------------------------------------------------------

  /** The three statuts the mappings know. */
  predicate KnownStatut(statut: string) {
    statut == "planifie" || statut == "en_cours" || statut == "termine"
  }

  const BadgeBase: string := "inline-flex items-center px-2.5 py-0.5 rounded-full text-xs font-medium "
  const GrayBadge: string := BadgeBase + "bg-gray-100 text-gray-800"

  /** getStatutBadgeClass. */
  function StatutBadgeClass(statut: string): (r: string)
    ensures !KnownStatut(statut) ==> r == GrayBadge
    ensures statut == "planifie" ==> r == GrayBadge
  {
    if statut == "planifie" then GrayBadge
    else if statut == "en_cours" then BadgeBase + "bg-blue-100 text-blue-800"
    else if statut == "termine" then BadgeBase + "bg-green-100 text-green-800"
    else GrayBadge
  }

  /** getProgressBarColor. */
  function ProgressBarColor(statut: string): (r: string)
    ensures !KnownStatut(statut) ==> r == "bg-gray-400"
  {
    if statut == "planifie" then "bg-gray-400"
    else if statut == "en_cours" then "bg-blue-500"
    else if statut == "termine" then "bg-green-500"
    else "bg-gray-400"
  }

  /** getStatutIcon. */
  function StatutIcon(statut: string): (r: string)
    ensures !KnownStatut(statut) ==> r == "question-mark-circle"
  {
    if statut == "planifie" then "clock"
    else if statut == "en_cours" then "play"
    else if statut == "termine" then "check-circle"
    else "question-mark-circle"
  }

  /** getStatutTexte. */
  function StatutTexte(statut: string): (r: string)
    ensures !KnownStatut(statut) ==> r == "Inconnu"
  {
    if statut == "planifie" then "Planifié"
    else if statut == "en_cours" then "En cours"
    else if statut == "termine" then "Terminé"
    else "Inconnu"
  }

  /** The icon and the text tell every known statut apart from the others and
      from an unknown one; the badge and the bar colour do not tell planifie
      from an unknown statut. */
  lemma MappingsSeparateKnown(s: string, t: string)
    requires KnownStatut(s) && s != t
    ensures StatutIcon(s) != StatutIcon(t) && StatutTexte(s) != StatutTexte(t)
    ensures StatutIcon(s) != "question-mark-circle" && StatutTexte(s) != "Inconnu"
  {
  }

  lemma PlanifieLooksUnknown(t: string)
    requires !KnownStatut(t)
    ensures StatutBadgeClass(t) == StatutBadgeClass("planifie")
    ensures ProgressBarColor(t) == ProgressBarColor("planifie")
    ensures StatutIcon(t) != StatutIcon("planifie")
  {
  }

  /** peutAvoirNouveauDevis: the chantier is planned or under way. */
  predicate PeutAvoirNouveauDevis(statut: string) {
    statut == "planifie" || statut == "en_cours"
  }

  /** A chantier that can take a new quote has a known, unfinished statut. */
  lemma NewQuoteOnlyWhenOpen(statut: string)
    ensures PeutAvoirNouveauDevis(statut) <==> KnownStatut(statut) && statut != "termine"
    ensures PeutAvoirNouveauDevis(statut) ==> StatutTexte(statut) == "Planifié" || StatutTexte(statut) == "En cours"
  {
  }

  // ---------------------------------------------------------------------------
  // Billing ratios
  // ---------------------------------------------------------------------------

  /** round(num / den * 100, 1) in tenths of a percent, 0 when den <= 0. */
  function RatioTenths(num: int, den: int): (r: int)
    ensures den <= 0 ==> r == 0
    ensures den > 0 && num >= 0 ==> r >= 0 && 2 * r * den - den <= 2000 * num < 2 * r * den + den
  {
    if den > 0 then RoundDiv(1000 * num, den) else 0
  }

  /** A part of a positive whole is between 0 and 100 %, and the whole is
      exactly 100 %. */
  lemma RatioOfPart(num: int, den: int)
    requires 0 <= num <= den && den > 0
    ensures 0 <= RatioTenths(num, den) <= 1000
    ensures num == den ==> RatioTenths(num, den) == 1000
    ensures num == 0 ==> RatioTenths(num, den) == 0
  {
    RoundDivUpper(1000 * num, 1000, den);
    if num == den {
      RoundDivExact(1000, den);
    }
    if num == 0 {
      RoundDivExact(0, den);
    }
  }

  /** devisAcceptes: the chantier's quotes whose statut is accepte, each as
      many times as it is stored. */
  function AcceptedQuotes(chantierId: int, devis: seq<Devis>): (r: seq<Devis>)
    ensures forall d :: multiset(r)[d] == if d.chantierId == chantierId && d.statut == Accepte then multiset(devis)[d] else 0
  {
    if devis == [] then []
    else
      var d := devis[|devis| - 1];
      assert devis == devis[..|devis| - 1] + [d];
      AcceptedQuotes(chantierId, devis[..|devis| - 1])
        + (if d.chantierId == chantierId && d.statut == Accepte then [d] else [])
  }

  /** The TTC amounts of the chantier's accepted quotes (devisAcceptes), one
      per accepted quote, in the order of devisAcceptes. */
  function AcceptedQuoteAmounts(chantierId: int, devis: seq<Devis>): (r: seq<int>)
    ensures var qs := AcceptedQuotes(chantierId, devis);
            |r| == |qs| && forall i :: 0 <= i < |r| ==> r[i] == qs[i].montantTtc
  {
    var qs := AcceptedQuotes(chantierId, devis);
    seq(|qs|, i requires 0 <= i < |qs| => qs[i].montantTtc)
  }

  /** Every amount summed is the TTC of an accepted quote of the chantier,
      and every such quote's TTC is summed. */
  lemma AcceptedAmountsMembers(chantierId: int, devis: seq<Devis>)
    ensures var r := AcceptedQuoteAmounts(chantierId, devis);
            && (forall a :: a in r ==>
                  exists d :: d in devis && d.chantierId == chantierId && d.statut == Accepte && d.montantTtc == a)
            && (forall d :: d in devis && d.chantierId == chantierId && d.statut == Accepte ==> d.montantTtc in r)
  {
    var r := AcceptedQuoteAmounts(chantierId, devis);
    var qs := AcceptedQuotes(chantierId, devis);
    forall a | a in r
      ensures exists d :: d in devis && d.chantierId == chantierId && d.statut == Accepte && d.montantTtc == a
    {
      var i :| 0 <= i < |r| && r[i] == a;
      assert qs[i] in multiset(qs);
      assert qs[i] in multiset(devis);
    }
    forall d | d in devis && d.chantierId == chantierId && d.statut == Accepte
      ensures d.montantTtc in r
    {
      assert d in multiset(devis);
      assert d in multiset(qs);
      var i :| 0 <= i < |qs| && qs[i] == d;
      assert r[i] == d.montantTtc;
    }
  }

  /** The chantier's invoices (factures), each as many times as it is
      stored. */
  function InvoicesOf(chantierId: int, factures: seq<Facture>): (r: seq<Facture>)
    ensures forall f :: multiset(r)[f] == if f.chantierId == chantierId then multiset(factures)[f] else 0
    ensures forall f :: f in r <==> f in factures && f.chantierId == chantierId
  {
    if factures == [] then []
    else
      var f := factures[|factures| - 1];
      assert factures == factures[..|factures| - 1] + [f];
      var init := InvoicesOf(chantierId, factures[..|factures| - 1]);
      if f.chantierId == chantierId then init + [f] else init
  }

  function TtcAmounts(fs: seq<Facture>): (r: seq<int>)
    ensures |r| == |fs| && forall i :: 0 <= i < |fs| ==> r[i] == fs[i].montantTtc
  {
    seq(|fs|, i requires 0 <= i < |fs| => fs[i].montantTtc)
  }

  function PaidAmounts(fs: seq<Facture>): (r: seq<int>)
    ensures |r| == |fs| && forall i :: 0 <= i < |fs| ==> r[i] == fs[i].montantPaye
  {
    seq(|fs|, i requires 0 <= i < |fs| => fs[i].montantPaye)
  }

  /** getAvancementFacturationAttribute: invoiced TTC over accepted-quote
      TTC. Without accepted quotes the progress is 0, whatever has been
      invoiced. */
  function AvancementFacturation(chantierId: int, devis: seq<Devis>, factures: seq<Facture>): (r: int)
    ensures (forall d :: d in devis && d.chantierId == chantierId ==> d.statut != Accepte) ==> r == 0
  {
    if forall d :: d in devis && d.chantierId == chantierId ==> d.statut != Accepte then
      NoAccepted(chantierId, devis);
      RatioTenths(Sum(TtcAmounts(InvoicesOf(chantierId, factures))), Sum(AcceptedQuoteAmounts(chantierId, devis)))
    else
      RatioTenths(Sum(TtcAmounts(InvoicesOf(chantierId, factures))), Sum(AcceptedQuoteAmounts(chantierId, devis)))
  }

  /** getTauxPaiementAttribute: paid amount over invoiced TTC. When no
      invoice is overpaid or negative the rate is between 0 and 100 %. */
  function TauxPaiement(chantierId: int, factures: seq<Facture>): (r: int)
    ensures PaidWithinTtc(InvoicesOf(chantierId, factures)) ==> 0 <= r <= 1000
  {
    var fs := InvoicesOf(chantierId, factures);
    if PaidWithinTtc(fs) then
      PaidRatioInRange(fs);
      RatioTenths(Sum(PaidAmounts(fs)), Sum(TtcAmounts(fs)))
    else
      RatioTenths(Sum(PaidAmounts(fs)), Sum(TtcAmounts(fs)))
  }

  /** Each invoice paid at most its TTC, and nothing negative. */
  predicate PaidWithinTtc(fs: seq<Facture>) {
    forall i :: 0 <= i < |fs| ==> 0 <= fs[i].montantPaye <= fs[i].montantTtc
  }

  lemma {:induction false} PaidSumWithinTtcSum(fs: seq<Facture>)
    requires PaidWithinTtc(fs)
    ensures 0 <= Sum(PaidAmounts(fs)) <= Sum(TtcAmounts(fs))
    decreases |fs|
  {
    if fs != [] {
      var init := fs[..|fs| - 1];
      PaidSumWithinTtcSum(init);
      assert PaidAmounts(fs)[..|fs| - 1] == PaidAmounts(init);
      assert TtcAmounts(fs)[..|fs| - 1] == TtcAmounts(init);
    }
  }

  /** When no invoice of the table is overpaid, none of a chantier's is,
      so the bound of TauxPaiement holds for every chantier. */
  lemma {:induction false} InvoicesOfKeeps(chantierId: int, factures: seq<Facture>)
    requires PaidWithinTtc(factures)
    ensures PaidWithinTtc(InvoicesOf(chantierId, factures))
    decreases |factures|
  {
    if factures != [] {
      InvoicesOfKeeps(chantierId, factures[..|factures| - 1]);
    }
  }

  /** When no invoice is overpaid the paid amount over the invoiced TTC is
      between 0 and 100 %. */
  lemma PaidRatioInRange(fs: seq<Facture>)
    requires PaidWithinTtc(fs)
    ensures 0 <= RatioTenths(Sum(PaidAmounts(fs)), Sum(TtcAmounts(fs))) <= 1000
  {
    PaidSumWithinTtcSum(fs);
    if Sum(TtcAmounts(fs)) > 0 {
      RatioOfPart(Sum(PaidAmounts(fs)), Sum(TtcAmounts(fs)));
    }
  }

  lemma NoAccepted(chantierId: int, devis: seq<Devis>)
    requires forall d :: d in devis && d.chantierId == chantierId ==> d.statut != Accepte
    ensures AcceptedQuoteAmounts(chantierId, devis) == []
  {
    var qs := AcceptedQuotes(chantierId, devis);
    assert multiset(qs) == multiset{};
  }

  // ---------------------------------------------------------------------------
  // The chantier record
  // ---------------------------------------------------------------------------

  class Chantier {
    var statut: string
    var dateFinPrevue: Option<int>
    /** avancement_global, in hundredths of a percent. */
    var avancementGlobal: int
    /** The pourcentage of each etape, in etape order. */
    var etapes: seq<int>

    constructor (statut: string, dateFinPrevue: Option<int>, avancementGlobal: int, etapes: seq<int>)
      ensures this.statut == statut && this.dateFinPrevue == dateFinPrevue
      ensures this.avancementGlobal == avancementGlobal && this.etapes == etapes
    {
      this.statut := statut;
      this.dateFinPrevue := dateFinPrevue;
      this.avancementGlobal := avancementGlobal;
      this.etapes := etapes;
    }

    /** calculerAvancement: 0 and no write without etapes; otherwise the mean,
        which is also written to avancement_global. */
    method CalculerAvancement() returns (moyenne: int)
      modifies this
      ensures etapes == old(etapes) && statut == old(statut) && dateFinPrevue == old(dateFinPrevue)
      ensures |etapes| == 0 ==> moyenne == 0 && avancementGlobal == old(avancementGlobal)
      ensures |etapes| > 0 ==> moyenne == MeanPercent(etapes) && avancementGlobal == moyenne
      ensures InRange(etapes) ==> 0 <= moyenne <= 10000
    {
      if |etapes| == 0 {
        return 0;
      }
      var total := Sum(etapes);
      moyenne := RoundDiv(total, |etapes|);
      if InRange(etapes) {
        MeanInRange(etapes);
      }
      avancementGlobal := moyenne;
    }

    /** isEnRetard: a planned end date that is past, on a chantier not
        finished. */
    predicate IsEnRetard(now: int)
      reads this
    {
      dateFinPrevue.Some? && dateFinPrevue.value < now && statut != "termine"
    }

    /** getRetardClass. */
    function RetardClass(now: int): (r: string)
      reads this
      ensures r != "" <==> IsEnRetard(now)
    {
      if IsEnRetard(now) then "text-red-600 font-semibold" else ""
    }
  }

  /** A finished chantier, or one without a planned end date, is never late;
      a late chantier stays late as time passes. */
  lemma LatenessFacts(c: Chantier, now: int, later: int)
    requires now <= later
    ensures c.statut == "termine" || c.dateFinPrevue.None? ==> !c.IsEnRetard(now)
    ensures c.IsEnRetard(now) ==> c.IsEnRetard(later)
  {
  }
}
