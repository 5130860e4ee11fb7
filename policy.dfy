/** Quote authorisation: app/Policies/DevisPolicy.php, with the role tests of
    app/Models/User.php. peutEtreModifie, peutEtreAccepte and
    peutEtreConverti belong to the quote model, which is not part of this
    model; they are inputs here. */
module Policy {
  import opened Common
  import opened Schema

  /** A user: its id and the role column. */
  datatype User = User(id: int, role: string)

  predicate IsAdmin(u: User) {
    u.role == "admin"
  }

  predicate IsCommercial(u: User) {
    u.role == "commercial"
  }

  predicate IsClient(u: User) {
    u.role == "client"
  }

  /** The chantier columns the policy reads. */
  datatype ChantierRef = ChantierRef(commercialId: int, clientId: int)

  /** The quote as the policy sees it. */
  datatype Quote = Quote(
    commercialId: int,
    chantier: ChantierRef,
    statut: DevisStatut,
    factureId: Option<int>,
    canBeModified: bool,
    canBeAccepted: bool,
    canBeConverted: bool)

  /** PHP truthiness of the nullable facture_id: set and not 0. */
  predicate HasInvoice(q: Quote) {
    q.factureId.Some? && q.factureId.value != 0
  }

  predicate OwnsQuote(u: User, q: Quote) {
    IsCommercial(u) && q.commercialId == u.id
  }

  predicate IsQuoteClient(u: User, q: Quote) {
    IsClient(u) && q.chantier.clientId == u.id
  }

  /** viewAny: the admin, the chantier's commercial or the chantier's client. */
  function ViewAny(u: User, c: ChantierRef): (ok: bool)
    ensures ok <==> IsAdmin(u) || (IsCommercial(u) && c.commercialId == u.id) || (IsClient(u) && c.clientId == u.id)
  {
    if IsAdmin(u) then true
    else if IsCommercial(u) && c.commercialId == u.id then true
    else IsClient(u) && c.clientId == u.id
  }

  /** view: the admin, the quote's commercial or the chantier's client. */
  function View(u: User, q: Quote): (ok: bool)
    ensures ok <==> IsAdmin(u) || OwnsQuote(u, q) || IsQuoteClient(u, q)
    ensures !IsAdmin(u) && !IsCommercial(u) && !IsClient(u) ==> !ok
  {
    if IsAdmin(u) then true
    else if OwnsQuote(u, q) then true
    else IsQuoteClient(u, q)
  }

  /** create: only staff, and a commercial only on a chantier of theirs. */
  function Create(u: User, c: ChantierRef): (ok: bool)
    ensures ok ==> IsAdmin(u) || IsCommercial(u)
  {
    if !IsAdmin(u) && !IsCommercial(u) then false
    else if IsAdmin(u) then true
    else IsCommercial(u) && c.commercialId == u.id
  }

  /** update: nobody unless the quote can still be modified. */
  function Update(u: User, q: Quote): (ok: bool)
    ensures ok <==> q.canBeModified && (IsAdmin(u) || OwnsQuote(u, q))
  {
    if !q.canBeModified then false
    else if IsAdmin(u) then true
    else OwnsQuote(u, q)
  }

  /** delete: never once accepted or invoiced; a commercial only their own
      draft. */
  function Delete(u: User, q: Quote): (ok: bool)
    ensures ok ==> q.statut != Accepte && !HasInvoice(q)
    ensures ok && !IsAdmin(u) ==> OwnsQuote(u, q) && q.statut == Brouillon
  {
    if q.statut == Accepte || HasInvoice(q) then false
    else if IsAdmin(u) then true
    else OwnsQuote(u, q) && q.statut == Brouillon
  }

  /** envoyer: only a draft is sent. */
  function Envoyer(u: User, q: Quote): (ok: bool)
    ensures ok <==> q.statut == Brouillon && (IsAdmin(u) || OwnsQuote(u, q))
  {
    if q.statut != Brouillon then false
    else if IsAdmin(u) then true
    else OwnsQuote(u, q)
  }

  /** accepter: the admin or the chantier's client, on a quote that can be
      accepted. */
  function Accepter(u: User, q: Quote): (ok: bool)
    ensures ok <==> q.canBeAccepted && (IsAdmin(u) || IsQuoteClient(u, q))
  {
    if !q.canBeAccepted then false
    else if IsAdmin(u) then true
    else IsQuoteClient(u, q)
  }

  /** refuser: the same rule as accepter. */
  function Refuser(u: User, q: Quote): (ok: bool)
    ensures ok <==> q.canBeAccepted && (IsAdmin(u) || IsQuoteClient(u, q))
  {
    if !q.canBeAccepted then false
    else if IsAdmin(u) then true
    else IsQuoteClient(u, q)
  }

  /** convertir: the admin or the quote's commercial, on a quote that can be
      converted. */
  function Convertir(u: User, q: Quote): (ok: bool)
    ensures ok <==> q.canBeConverted && (IsAdmin(u) || OwnsQuote(u, q))
  {
    if !q.canBeConverted then false
    else if IsAdmin(u) then true
    else OwnsQuote(u, q)
  }

  /** dupliquer: the admin, the quote's commercial or the chantier's commercial. */
  function Dupliquer(u: User, q: Quote): (ok: bool)
    ensures ok <==> IsAdmin(u) || OwnsQuote(u, q) || (IsCommercial(u) && q.chantier.commercialId == u.id)
  {
    if IsAdmin(u) then true
    else IsCommercial(u) && (q.commercialId == u.id || q.chantier.commercialId == u.id)
  }

  /** downloadPdf: the same users as view. */
  function DownloadPdf(u: User, q: Quote): (ok: bool)
    ensures ok <==> IsAdmin(u) || OwnsQuote(u, q) || IsQuoteClient(u, q)
  {
    View(u, q)
  }

  /** signer: only the chantier's client, on a quote that can be accepted. */
  function Signer(u: User, q: Quote): (ok: bool)
    ensures ok <==> q.canBeAccepted && IsQuoteClient(u, q)
  {
    if !q.canBeAccepted then false
    else IsQuoteClient(u, q)
  }

  // ---------------------------------------------------------------------------
  // Properties of the decision table
  // ---------------------------------------------------------------------------

  /** The roles are exclusive. */
  lemma RolesExclusive(u: User)
    ensures !(IsAdmin(u) && IsCommercial(u)) && !(IsAdmin(u) && IsClient(u)) && !(IsCommercial(u) && IsClient(u))
  {
  }

  /** The admin sees, lists, creates and duplicates without condition. */
  lemma AdminUnconditional(u: User, c: ChantierRef, q: Quote)
    requires IsAdmin(u)
    ensures ViewAny(u, c) && View(u, q) && Create(u, c) && Dupliquer(u, q) && DownloadPdf(u, q)
  {
  }

  /** The status guards bind every user, the admin included. */
  lemma StatusGuardsBindEveryone(u: User, q: Quote)
    ensures q.statut == Accepte || HasInvoice(q) ==> !Delete(u, q)
    ensures q.statut != Brouillon ==> !Envoyer(u, q)
    ensures !q.canBeModified ==> !Update(u, q)
    ensures !q.canBeAccepted ==> !Accepter(u, q) && !Refuser(u, q) && !Signer(u, q)
    ensures !q.canBeConverted ==> !Convertir(u, q)
  {
  }

  /** Past the guards the admin is granted every staff action. */
  lemma AdminPastGuards(u: User, q: Quote)
    requires IsAdmin(u)
    ensures Delete(u, q) <==> q.statut != Accepte && !HasInvoice(q)
    ensures Envoyer(u, q) <==> q.statut == Brouillon
    ensures Update(u, q) <==> q.canBeModified
    ensures Accepter(u, q) <==> q.canBeAccepted
    ensures Convertir(u, q) <==> q.canBeConverted
  {
  }

  /** What a commercial is granted: their own quotes, past each guard, and
      duplication on their chantiers as well; never a client action. */
  lemma CommercialPastGuards(u: User, c: ChantierRef, q: Quote)
    requires IsCommercial(u)
    ensures ViewAny(u, c) <==> c.commercialId == u.id
    ensures View(u, q) <==> q.commercialId == u.id
    ensures Update(u, q) <==> q.canBeModified && q.commercialId == u.id
    ensures Envoyer(u, q) <==> q.statut == Brouillon && q.commercialId == u.id
    ensures Convertir(u, q) <==> q.canBeConverted && q.commercialId == u.id
    ensures Dupliquer(u, q) <==> q.commercialId == u.id || q.chantier.commercialId == u.id
    ensures !Accepter(u, q) && !Refuser(u, q) && !Signer(u, q)
  {
  }

  /** What a client is granted: viewing, accepting, refusing and signing the
      quotes of their chantier, and no staff action. */
  lemma ClientPastGuards(u: User, c: ChantierRef, q: Quote)
    requires IsClient(u)
    ensures ViewAny(u, c) <==> c.clientId == u.id
    ensures View(u, q) <==> q.chantier.clientId == u.id
    ensures Accepter(u, q) <==> q.canBeAccepted && q.chantier.clientId == u.id
    ensures Refuser(u, q) <==> q.canBeAccepted && q.chantier.clientId == u.id
    ensures Signer(u, q) <==> q.canBeAccepted && q.chantier.clientId == u.id
    ensures !Create(u, c) && !Update(u, q) && !Delete(u, q) && !Envoyer(u, q) && !Convertir(u, q) && !Dupliquer(u, q)
  {
  }

  /** A commercial deletes exactly their own drafts without an invoice. */
  lemma CommercialDelete(u: User, q: Quote)
    requires IsCommercial(u)
    ensures Delete(u, q) <==> q.commercialId == u.id && q.statut == Brouillon && !HasInvoice(q)
  {
  }

  /** A client never creates a quote; a commercial creates exactly on a
      chantier whose commercial they are. */
  lemma CreateByRole(u: User, c: ChantierRef)
    ensures IsClient(u) ==> !Create(u, c)
    ensures IsCommercial(u) ==> (Create(u, c) <==> c.commercialId == u.id)
  {
  }

  /** Accepting and refusing are granted to the same users on the same quotes. */
  lemma AccepterIsRefuser(u: User, q: Quote)
    ensures Accepter(u, q) == Refuser(u, q)
  {
  }

  /** Signing is for the client alone and implies the right to accept. */
  lemma SignerOnlyClient(u: User, q: Quote)
    ensures IsAdmin(u) || IsCommercial(u) ==> !Signer(u, q)
    ensures Signer(u, q) ==> Accepter(u, q)
    ensures IsClient(u) ==> Signer(u, q) == Accepter(u, q)
  {
  }

  /** Downloading the PDF is granted exactly when viewing is. */
  lemma DownloadIsView(u: User, q: Quote)
    ensures DownloadPdf(u, q) == View(u, q)
  {
  }

  /** A client can act on a quote only when it is their chantier's. */
  lemma ClientReach(u: User, q: Quote)
    requires IsClient(u) && q.chantier.clientId != u.id
    ensures !View(u, q) && !Accepter(u, q) && !Refuser(u, q) && !Signer(u, q)
    ensures !Update(u, q) && !Delete(u, q) && !Envoyer(u, q) && !Convertir(u, q) && !Dupliquer(u, q)
  {
  }
}
