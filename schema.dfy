/** The records of the quote, invoice, line and payment tables, as far as the
    modelled code reads them (database/migrations). Money is in integer cents,
    rates in hundredths of a percent, quantities in hundredths; dates and
    timestamps are wall-clock seconds (a date is the second of its midnight,
    see Common.DaySeconds). */
module Schema {
  import opened Common

  /** The statut enum of the devis table. */
  datatype DevisStatut = Brouillon | Envoye | Accepte | Refuse | Expire {
    function Name(): string {
      match this
      case Brouillon => "brouillon"
      case Envoye => "envoye"
      case Accepte => "accepte"
      case Refuse => "refuse"
      case Expire => "expire"
    }
  }

  /** The statut enum of the factures table. */
  datatype FactureStatut = FBrouillon | Envoyee | PayeePartiel | Payee | EnRetard | Annulee {
    function Name(): string {
      match this
      case FBrouillon => "brouillon"
      case Envoyee => "envoyee"
      case PayeePartiel => "payee_partiel"
      case Payee => "payee"
      case EnRetard => "en_retard"
      case Annulee => "annulee"
    }
  }

  /** The statut enum of the paiements table. */
  datatype PaiementStatut = EnAttente | Valide | Rejete {
    function Name(): string {
      match this
      case EnAttente => "en_attente"
      case Valide => "valide"
      case Rejete => "rejete"
    }
  }

  /** The mode_paiement enum of the paiements table. */
  datatype ModePaiement = Virement | Cheque | Especes | Cb | Prelevement | Autre {
    function Name(): string {
      match this
      case Virement => "virement"
      case Cheque => "cheque"
      case Especes => "especes"
      case Cb => "cb"
      case Prelevement => "prelevement"
      case Autre => "autre"
    }
  }

  /** Reading a stored statut back: the database accepts only the listed
      names. */
  function ParseDevisStatut(s: string): (r: Option<DevisStatut>)
    ensures r.Some? ==> r.value.Name() == s
  {
    if s == "brouillon" then Some(Brouillon)
    else if s == "envoye" then Some(Envoye)
    else if s == "accepte" then Some(Accepte)
    else if s == "refuse" then Some(Refuse)
    else if s == "expire" then Some(Expire)
    else None
  }

  function ParseFactureStatut(s: string): (r: Option<FactureStatut>)
    ensures r.Some? ==> r.value.Name() == s
  {
    if s == "brouillon" then Some(FBrouillon)
    else if s == "envoyee" then Some(Envoyee)
    else if s == "payee_partiel" then Some(PayeePartiel)
    else if s == "payee" then Some(Payee)
    else if s == "en_retard" then Some(EnRetard)
    else if s == "annulee" then Some(Annulee)
    else None
  }

  function ParsePaiementStatut(s: string): (r: Option<PaiementStatut>)
    ensures r.Some? ==> r.value.Name() == s
  {
    if s == "en_attente" then Some(EnAttente)
    else if s == "valide" then Some(Valide)
    else if s == "rejete" then Some(Rejete)
    else None
  }

  /** Every enum value is stored under a name that reads back as itself, so
      the names are pairwise distinct. */
  lemma StatutNamesRoundTrip(d: DevisStatut, f: FactureStatut, p: PaiementStatut)
    ensures ParseDevisStatut(d.Name()) == Some(d)
    ensures ParseFactureStatut(f.Name()) == Some(f)
    ensures ParsePaiementStatut(p.Name()) == Some(p)
  {
  }

  // ---------------------------------------------------------------------------
  // Money columns and the documented line formulas
  // ---------------------------------------------------------------------------

  /** montant_ht = quantite * prix_unitaire_ht, stored with two decimals. */
  function LineHt(quantityHundredths: int, unitPriceCents: int): (ht: int)
    ensures quantityHundredths >= 0 && unitPriceCents >= 0 ==> ht >= 0
    ensures quantityHundredths % 100 == 0 ==> ht == quantityHundredths / 100 * unitPriceCents
  {
    var exact := quantityHundredths * unitPriceCents;
    if quantityHundredths % 100 == 0 then
      var q := quantityHundredths / 100;
      assert exact == (q * unitPriceCents) * 100;
      RoundDivExact(q * unitPriceCents, 100);
      RoundDiv(exact, 100)
    else
      RoundDiv(exact, 100)
  }

  /** montant_tva = montant_ht * taux_tva / 100, stored with two decimals. */
  function LineTva(htCents: int, rateHundredths: int): (tva: int)
    ensures htCents >= 0 && 0 <= rateHundredths <= 10000 ==> 0 <= tva <= htCents
  {
    if htCents >= 0 && 0 <= rateHundredths <= 10000 then
      var exact := htCents * rateHundredths;
      assert exact <= htCents * 10000;
      RoundDivUpper(exact, htCents, 10000);
      RoundDiv(exact, 10000)
    else
      RoundDiv(htCents * rateHundredths, 10000)
  }

  /** Rounding n / d never exceeds a whole bound q with n <= q * d. */
  lemma RoundDivUpper(n: int, q: int, d: int)
    requires d > 0 && 0 <= n <= q * d
    ensures RoundDiv(n, d) <= q
  {
    var r := RoundDiv(n, d);
    MultipleBound(r - q, d);
    assert 2 * r * d - 2 * q * d == 2 * ((r - q) * d);
  }

  /** A line as the documented formulas compute it. */
  datatype LineAmounts = LineAmounts(ht: int, tva: int, ttc: int)

  /** montant_ttc = montant_ht + montant_tva. */
  function ComputeLine(quantityHundredths: int, unitPriceCents: int, rateHundredths: int): (a: LineAmounts)
    ensures a.ttc - a.ht == a.tva
    ensures quantityHundredths >= 0 && unitPriceCents >= 0 && 0 <= rateHundredths <= 10000 ==>
              0 <= a.ht <= a.ttc <= 2 * a.ht
  {
    var ht := LineHt(quantityHundredths, unitPriceCents);
    var tva := LineTva(ht, rateHundredths);
    LineAmounts(ht, tva, ht + tva)
  }

  /** The standard 20 % rate on a whole quantity: TTC is 1.2 times HT when HT
      is a multiple of 5 cents. */
  lemma StandardRateExample(units: nat, unitPriceCents: nat)
    requires (units * unitPriceCents) % 5 == 0
    ensures var a := ComputeLine(100 * units, unitPriceCents, 2000);
            a.ht == units * unitPriceCents && 5 * a.ttc == 6 * a.ht
  {
    var ht := units * unitPriceCents;
    assert (100 * units) % 100 == 0 && (100 * units) / 100 == units;
    var k := ht / 5;
    assert ht * 2000 == k * 10000;
    RoundDivExact(k, 10000);
  }

  // ---------------------------------------------------------------------------
  // Records
  // ---------------------------------------------------------------------------

  /** A row of devis, with the columns the modelled code reads. */
  datatype Devis = Devis(
    id: int,
    numero: string,
    chantierId: int,
    commercialId: int,
    statut: DevisStatut,
    dateValidite: int,
    factureId: Option<int>,
    montantHt: int,
    montantTva: int,
    montantTtc: int)

  /** A row of factures. */
  datatype Facture = Facture(
    id: int,
    numero: string,
    chantierId: int,
    statut: FactureStatut,
    createdAt: int,
    montantHt: int,
    montantTva: int,
    montantTtc: int,
    montantPaye: int)

  /** Which document a line belongs to (the ligneable morph). */
  datatype Owner = OfDevis(devisId: int) | OfFacture(factureId: int)

  /** A row of lignes. */
  datatype Ligne = Ligne(
    id: int,
    owner: Owner,
    categorie: Option<string>,
    tauxTva: int,
    montantHt: int,
    montantTva: int,
    montantTtc: int)

  /** A row of paiements. */
  datatype Paiement = Paiement(
    id: int,
    factureId: int,
    montant: int,
    datePaiement: int,
    mode: ModePaiement,
    statut: PaiementStatut)
}
