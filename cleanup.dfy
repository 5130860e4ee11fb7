/** The maintenance command devis:cleanup of
    app/Console/Commands/CleanupDevisFactures.php: the quote-expiry sweep, the
    stale-draft-invoice purge, the task loop and the summary total. The four
    tables are fields of a Store; the current time is an input. */
module Cleanup {
  import opened Common
  import opened Schema

  /** One line of a task's details. */
  datatype Detail =
    | MarkedExpired(numero: string)   // "Devis … marqué comme expiré"
    | DraftDeleted(numero: string)    // "Facture brouillon … supprimée"
    | WouldClean(numero: string)      // a dry-run preview line
    | AndOthers(count: nat)           // "... et N autres"

  /** The array a task returns: its count and its details. */
  datatype TaskResult = TaskResult(count: nat, details: seq<Detail>)

  /** Carbon::now()->subDays($days): the same wall-clock time, days earlier.
      The cutoff is an instant, not a day. */
  function Cutoff(now: int, days: int): int {
    now - days * DaySeconds
  }

  // ---------------------------------------------------------------------------
  // Quote expiry: selection and effect
  // ---------------------------------------------------------------------------

  /** statut = envoye, date_validite < cutoff, facture_id IS NULL. */
  predicate Expirable(d: Devis, cutoff: int) {
    d.statut == Envoye && d.dateValidite < cutoff && d.factureId.None?
  }

  function ExpireOne(d: Devis, cutoff: int): Devis {
    if Expirable(d, cutoff) then d.(statut := Expire) else d
  }

  /** date_validite is a date, so it compares as its midnight: a quote whose
      validity ends on the cutoff's own day is selected unless the cutoff
      falls exactly at midnight. */
  lemma CutoffDaySelected(d: Devis, now: int, days: int)
    requires d.statut == Envoye && d.factureId.None?
    requires var c := Cutoff(now, days); d.dateValidite == c - c % DaySeconds
    ensures Expirable(d, Cutoff(now, days)) <==> Cutoff(now, days) % DaySeconds != 0
  {
  }

  /** The table after the sweep: each selected quote marked expire. */
  function ExpireAll(ds: seq<Devis>, cutoff: int): (r: seq<Devis>)
    ensures |r| == |ds| && forall j :: 0 <= j < |ds| ==> r[j] == ExpireOne(ds[j], cutoff)
  {
    seq(|ds|, j requires 0 <= j < |ds| => ExpireOne(ds[j], cutoff))
  }

  /** The numbers of the selected quotes, in table order. */
  function ExpirableNumeros(ds: seq<Devis>, cutoff: int): (r: seq<string>)
    ensures |r| <= |ds|
  {
    if ds == [] then []
    else
      var last := ds[|ds| - 1];
      ExpirableNumeros(ds[..|ds| - 1], cutoff) + (if Expirable(last, cutoff) then [last.numero] else [])
  }

  /** $query->count(). */
  function CountExpirable(ds: seq<Devis>, cutoff: int): nat {
    |ExpirableNumeros(ds, cutoff)|
  }

  /** The number of rows that differ between two tables of one length. */
  function CountChanged<T(==)>(before: seq<T>, after: seq<T>): (n: nat)
    requires |before| == |after|
    ensures n <= |before|
  {
    if before == [] then 0
    else CountChanged(before[..|before| - 1], after[..|after| - 1])
         + (if before[|before| - 1] != after[|after| - 1] then 1 else 0)
  }

  /** The sweep changes the statut of exactly the selected quotes to expire
      and nothing else: no other column, no other quote. */
  lemma ExpireOnlyStatut(ds: seq<Devis>, cutoff: int, j: int)
    requires 0 <= j < |ds|
    ensures var e := ExpireAll(ds, cutoff)[j];
            && e.(statut := ds[j].statut) == ds[j]
            && e.factureId == ds[j].factureId
            && (e != ds[j] <==> Expirable(ds[j], cutoff))
            && (Expirable(ds[j], cutoff) ==> e.statut == Expire)
  {
  }

  /** The count taken before the update equals the number of rows updated. */
  lemma {:induction false} ExpireCountIsChanged(ds: seq<Devis>, cutoff: int)
    ensures CountChanged(ds, ExpireAll(ds, cutoff)) == CountExpirable(ds, cutoff)
    decreases |ds|
  {
    if ds != [] {
      var init := ds[..|ds| - 1];
      assert ExpireAll(ds, cutoff)[..|ds| - 1] == ExpireAll(init, cutoff);
      ExpireCountIsChanged(init, cutoff);
    }
  }

  /** Re-running the sweep selects nothing and changes nothing. */
  lemma {:induction false} ExpireIdempotent(ds: seq<Devis>, cutoff: int)
    ensures CountExpirable(ExpireAll(ds, cutoff), cutoff) == 0
    ensures ExpireAll(ExpireAll(ds, cutoff), cutoff) == ExpireAll(ds, cutoff)
    decreases |ds|
  {
    if ds != [] {
      var init := ds[..|ds| - 1];
      assert ExpireAll(ds, cutoff)[..|ds| - 1] == ExpireAll(init, cutoff);
      ExpireIdempotent(init, cutoff);
    }
  }

  /** When nothing is selected the sweep changes nothing. */
  lemma {:induction false} NothingExpirable(ds: seq<Devis>, cutoff: int)
    requires CountExpirable(ds, cutoff) == 0
    ensures ExpireAll(ds, cutoff) == ds
    decreases |ds|
  {
    if ds != [] {
      var init := ds[..|ds| - 1];
      NothingExpirable(init, cutoff);
      assert ExpireAll(ds, cutoff)[..|ds| - 1] == ExpireAll(init, cutoff);
      assert ds == init + [ds[|ds| - 1]];
    }
  }

  /** What a detail line reports about a number. */
  datatype Action = Mark | Delete | Show {
    function Line(numero: string): Detail {
      match this
      case Mark => MarkedExpired(numero)
      case Delete => DraftDeleted(numero)
      case Show => WouldClean(numero)
    }
  }

  /** One detail line per number, in order. */
  function Tagged(numeros: seq<string>, a: Action): (r: seq<Detail>)
    ensures |r| == |numeros| && forall k :: 0 <= k < |r| ==> r[k] == a.Line(numeros[k])
  {
    seq(|numeros|, k requires 0 <= k < |numeros| => a.Line(numeros[k]))
  }

  lemma TaggedSnoc(numeros: seq<string>, x: string, a: Action)
    ensures Tagged(numeros + [x], a) == Tagged(numeros, a) + [a.Line(x)]
  {
  }

  /** The dry-run details: the first five selected numbers, then
      "... et N autres" when more were selected. */
  function Preview(numeros: seq<string>): (r: seq<Detail>)
    ensures |r| <= 6
    ensures |numeros| <= 5 ==> |r| == |numeros|
    ensures |numeros| > 5 ==> |r| == 6 && r[5] == AndOthers(|numeros| - 5)
    ensures forall k :: 0 <= k < |r| && k < 5 && k < |numeros| ==> r[k] == WouldClean(numeros[k])
  {
    var shown := if |numeros| < 5 then numeros else numeros[..5];
    Tagged(shown, Show) + (if |numeros| > 5 then [AndOthers(|numeros| - 5)] else [])
  }

  // ---------------------------------------------------------------------------
  // Draft-invoice purge: selection and effect
  // ---------------------------------------------------------------------------

  /** The invoice has a payment of any statut (whereDoesntHave('paiements')). */
  predicate HasPayment(f: Facture, ps: seq<Paiement>) {
    exists p :: p in ps && p.factureId == f.id
  }

  /** statut = brouillon, created_at < cutoff, and no payment. */
  predicate Purgeable(f: Facture, cutoff: int, ps: seq<Paiement>) {
    f.statut == FBrouillon && f.createdAt < cutoff && !HasPayment(f, ps)
  }

  /** The invoices the purge keeps, in table order. */
  function KeptFactures(fs: seq<Facture>, cutoff: int, ps: seq<Paiement>): (r: seq<Facture>)
    ensures |r| <= |fs|
  {
    if fs == [] then []
    else
      var last := fs[|fs| - 1];
      var init := KeptFactures(fs[..|fs| - 1], cutoff, ps);
      if Purgeable(last, cutoff, ps) then init else init + [last]
  }

  /** The purge keeps exactly the invoices that are not selected. */
  lemma {:induction false} KeptFacturesMembers(fs: seq<Facture>, cutoff: int, ps: seq<Paiement>, f: Facture)
    ensures f in KeptFactures(fs, cutoff, ps) <==> f in fs && !Purgeable(f, cutoff, ps)
    decreases |fs|
  {
    if fs != [] {
      KeptFacturesMembers(fs[..|fs| - 1], cutoff, ps, f);
      assert fs == fs[..|fs| - 1] + [fs[|fs| - 1]];
    }
  }

  /** The numbers of the purged invoices, in table order. */
  function PurgedNumeros(fs: seq<Facture>, cutoff: int, ps: seq<Paiement>): seq<string> {
    if fs == [] then []
    else
      var last := fs[|fs| - 1];
      PurgedNumeros(fs[..|fs| - 1], cutoff, ps) + (if Purgeable(last, cutoff, ps) then [last.numero] else [])
  }

  /** The ids of the purged invoices. */
  function PurgedIds(fs: seq<Facture>, cutoff: int, ps: seq<Paiement>): set<int> {
    if fs == [] then {}
    else
      var last := fs[|fs| - 1];
      PurgedIds(fs[..|fs| - 1], cutoff, ps) + (if Purgeable(last, cutoff, ps) then {last.id} else {})
  }

  /** An id is purged exactly when some selected invoice carries it. */
  lemma {:induction false} PurgedIdsMembers(fs: seq<Facture>, cutoff: int, ps: seq<Paiement>, id: int)
    ensures id in PurgedIds(fs, cutoff, ps) <==> exists f :: f in fs && Purgeable(f, cutoff, ps) && f.id == id
    decreases |fs|
  {
    if fs != [] {
      PurgedIdsMembers(fs[..|fs| - 1], cutoff, ps, id);
      assert fs == fs[..|fs| - 1] + [fs[|fs| - 1]];
    }
  }

  /** $facture->lignes()->delete() for every id of ids: the lines kept. */
  function KeptLines(ls: seq<Ligne>, ids: set<int>): (r: seq<Ligne>)
    ensures |r| <= |ls|
  {
    if ls == [] then []
    else
      var last := ls[|ls| - 1];
      var init := KeptLines(ls[..|ls| - 1], ids);
      if last.owner.OfFacture? && last.owner.factureId in ids then init else init + [last]
  }

  /** A line is kept exactly when it does not belong to a purged invoice. */
  lemma {:induction false} KeptLinesMembers(ls: seq<Ligne>, ids: set<int>, l: Ligne)
    ensures l in KeptLines(ls, ids) <==> l in ls && !(l.owner.OfFacture? && l.owner.factureId in ids)
    decreases |ls|
  {
    if ls != [] {
      KeptLinesMembers(ls[..|ls| - 1], ids, l);
      assert ls == ls[..|ls| - 1] + [ls[|ls| - 1]];
    }
  }

  lemma {:induction false} KeptLinesTwice(ls: seq<Ligne>, ids: set<int>, id: int)
    ensures KeptLines(KeptLines(ls, ids), {id}) == KeptLines(ls, ids + {id})
    decreases |ls|
  {
    if ls != [] {
      KeptLinesTwice(ls[..|ls| - 1], ids, id);
    }
  }

  /** ON DELETE SET NULL on devis.facture_id: a quote linked to a deleted
      invoice loses its link. */
  function UnlinkOne(d: Devis, ids: set<int>): Devis {
    if d.factureId.Some? && d.factureId.value in ids then d.(factureId := None) else d
  }

  /** The quote table after the invoices with the given ids are deleted: the
      links to them are cleared and nothing else changes. */
  function Unlinked(ds: seq<Devis>, ids: set<int>): (r: seq<Devis>)
    ensures |r| == |ds|
    ensures forall j :: 0 <= j < |ds| ==> r[j].(factureId := ds[j].factureId) == ds[j]
    ensures forall j :: 0 <= j < |ds| ==>
              r[j].factureId == if ds[j].factureId.Some? && ds[j].factureId.value in ids then None else ds[j].factureId
  {
    seq(|ds|, j requires 0 <= j < |ds| => UnlinkOne(ds[j], ids))
  }

  /** Deleting no invoice clears no link. */
  lemma UnlinkedNone(ds: seq<Devis>)
    ensures Unlinked(ds, {}) == ds
  {
    assert forall j :: 0 <= j < |ds| ==> UnlinkOne(ds[j], {}) == ds[j];
  }

  /** Deleting one more invoice clears its links on top of the others. */
  lemma UnlinkedTwice(ds: seq<Devis>, ids: set<int>, id: int)
    ensures Unlinked(Unlinked(ds, ids), {id}) == Unlinked(ds, ids + {id})
  {
    assert forall j :: 0 <= j < |ds| ==> UnlinkOne(UnlinkOne(ds[j], ids), {id}) == UnlinkOne(ds[j], ids + {id});
  }

  /** Every link of a quote names an invoice of the table. */
  predicate LinksResolve(ds: seq<Devis>, fs: seq<Facture>) {
    forall d :: d in ds && d.factureId.Some? ==> exists f :: f in fs && f.id == d.factureId.value
  }

  /** The purge keeps the quote table's links resolving: the links to the
      purged invoices are cleared, and every other link names a kept
      invoice. */
  lemma PurgeKeepsLinks(ds: seq<Devis>, fs: seq<Facture>, cutoff: int, ps: seq<Paiement>)
    requires LinksResolve(ds, fs)
    ensures LinksResolve(Unlinked(ds, PurgedIds(fs, cutoff, ps)), KeptFactures(fs, cutoff, ps))
  {
    var ids := PurgedIds(fs, cutoff, ps);
    var us := Unlinked(ds, ids);
    forall u | u in us && u.factureId.Some?
      ensures exists f :: f in KeptFactures(fs, cutoff, ps) && f.id == u.factureId.value
    {
      var j :| 0 <= j < |us| && us[j] == u;
      var id := u.factureId.value;
      assert ds[j].factureId == Some(id) && id !in ids;
      var f :| f in fs && f.id == id;
      PurgedIdsMembers(fs, cutoff, ps, id);
      KeptFacturesMembers(fs, cutoff, ps, f);
    }
  }

  /** When nothing is selected the purge keeps every invoice. */
  lemma {:induction false} NothingPurgeable(fs: seq<Facture>, cutoff: int, ps: seq<Paiement>)
    requires PurgedNumeros(fs, cutoff, ps) == []
    ensures KeptFactures(fs, cutoff, ps) == fs
    ensures PurgedIds(fs, cutoff, ps) == {}
    decreases |fs|
  {
    if fs != [] {
      var init := fs[..|fs| - 1];
      NothingPurgeable(init, cutoff, ps);
      assert fs == init + [fs[|fs| - 1]];
    }
  }

  /** The selection over one more invoice of the table. */
  lemma PurgeStep(fs: seq<Facture>, i: int, cutoff: int, ps: seq<Paiement>)
    requires 0 <= i < |fs|
    ensures var p := Purgeable(fs[i], cutoff, ps);
            && KeptFactures(fs[..i + 1], cutoff, ps) == KeptFactures(fs[..i], cutoff, ps) + (if p then [] else [fs[i]])
            && PurgedNumeros(fs[..i + 1], cutoff, ps) == PurgedNumeros(fs[..i], cutoff, ps) + (if p then [fs[i].numero] else [])
            && PurgedIds(fs[..i + 1], cutoff, ps) == PurgedIds(fs[..i], cutoff, ps) + (if p then {fs[i].id} else {})
  {
    assert fs[..i + 1][..i] == fs[..i];
  }

  /** One step of the purge loop on the table: with kept the invoices kept
      so far and fs[i..] those not yet visited, the row at |kept| is fs[i];
      deleting it (when selected) or stepping past it (otherwise) gives the
      table of the next step. */
  lemma PurgeLoopStep(fs: seq<Facture>, i: int, cutoff: int, ps: seq<Paiement>)
    requires 0 <= i < |fs|
    ensures var kept := KeptFactures(fs[..i], cutoff, ps);
            var table := kept + fs[i..];
            && table[|kept|] == fs[i]
            && (Purgeable(fs[i], cutoff, ps) ==>
                  table[..|kept|] + table[|kept| + 1..] == KeptFactures(fs[..i + 1], cutoff, ps) + fs[i + 1..]
                  && |KeptFactures(fs[..i + 1], cutoff, ps)| == |kept|)
            && (!Purgeable(fs[i], cutoff, ps) ==>
                  table == KeptFactures(fs[..i + 1], cutoff, ps) + fs[i + 1..]
                  && |KeptFactures(fs[..i + 1], cutoff, ps)| == |kept| + 1)
  {
    var kept := KeptFactures(fs[..i], cutoff, ps);
    PurgeStep(fs, i, cutoff, ps);
    assert fs[i..] == [fs[i]] + fs[i + 1..];
    var table := kept + fs[i..];
    assert table == kept + [fs[i]] + fs[i + 1..];
    assert table[..|kept|] == kept;
    assert table[|kept| + 1..] == fs[i + 1..];
  }

  /** Deleting the lines of no invoice keeps every line. */
  lemma {:induction false} KeptLinesNone(ls: seq<Ligne>)
    ensures KeptLines(ls, {}) == ls
    decreases |ls|
  {
    if ls != [] {
      KeptLinesNone(ls[..|ls| - 1]);
      assert ls == ls[..|ls| - 1] + [ls[|ls| - 1]];
    }
  }

  /** An invoice with a payment, whatever its statut, is never purged: it is
      kept, and so are all of its lines (payments and lines refer to the
      invoice by id, so no purged invoice shares its id). */
  lemma PaidNeverPurged(fs: seq<Facture>, ls: seq<Ligne>, cutoff: int, ps: seq<Paiement>, f: Facture)
    requires f in fs && HasPayment(f, ps)
    ensures f in KeptFactures(fs, cutoff, ps)
    ensures f.id !in PurgedIds(fs, cutoff, ps)
    ensures forall l :: l in ls && l.owner == OfFacture(f.id) ==> l in KeptLines(ls, PurgedIds(fs, cutoff, ps))
  {
    KeptFacturesMembers(fs, cutoff, ps, f);
    PurgedIdsMembers(fs, cutoff, ps, f.id);
    forall l | l in ls && l.owner == OfFacture(f.id)
      ensures l in KeptLines(ls, PurgedIds(fs, cutoff, ps))
    {
      KeptLinesMembers(ls, PurgedIds(fs, cutoff, ps), l);
    }
  }

  /** The count taken before the deletions equals the number of invoices
      deleted. */
  lemma {:induction false} PurgeCountIsDeleted(fs: seq<Facture>, cutoff: int, ps: seq<Paiement>)
    ensures |fs| - |KeptFactures(fs, cutoff, ps)| == |PurgedNumeros(fs, cutoff, ps)|
    decreases |fs|
  {
    if fs != [] {
      PurgeCountIsDeleted(fs[..|fs| - 1], cutoff, ps);
    }
  }

  /** Re-running the purge selects nothing. */
  lemma {:induction false} PurgeIdempotent(fs: seq<Facture>, cutoff: int, ps: seq<Paiement>)
    ensures PurgedNumeros(KeptFactures(fs, cutoff, ps), cutoff, ps) == []
    ensures KeptFactures(KeptFactures(fs, cutoff, ps), cutoff, ps) == KeptFactures(fs, cutoff, ps)
    decreases |fs|
  {
    if fs != [] {
      var init := fs[..|fs| - 1];
      var last := fs[|fs| - 1];
      PurgeIdempotent(init, cutoff, ps);
      var k := KeptFactures(init, cutoff, ps);
      if !Purgeable(last, cutoff, ps) {
        assert (k + [last])[..|k + [last]| - 1] == k;
      }
    }
  }

  // ---------------------------------------------------------------------------
  // The command
  // ---------------------------------------------------------------------------

  /** The counts reported by the four tasks that are not part of this
      model: old notifications, temporary PDF files, orphaned files and the
      database optimisation. */
  datatype Outside = Outside(notifications: nat, tempFiles: nat, orphanedFiles: nat, optimize: nat) {
    function Count(t: Task): nat {
      match t
      case Notifications => notifications
      case TempFiles => tempFiles
      case OrphanedFiles => orphanedFiles
      case OptimizeDatabase => optimize
      case _ => 0
    }
  }

  /** The six tasks of handle, in order. */
  datatype Task = DevisExpires | FacturesBrouillon | Notifications | TempFiles | OrphanedFiles | OptimizeDatabase {
    function Description(): string {
      match this
      case DevisExpires => "Devis expirés"
      case FacturesBrouillon => "Factures brouillon anciennes"
      case Notifications => "Notifications anciennes"
      case TempFiles => "Fichiers PDF temporaires"
      case OrphanedFiles => "Fichiers orphelins"
      case OptimizeDatabase => "Optimisation base de données"
    }
  }

  const Tasks: seq<Task> := [DevisExpires, FacturesBrouillon, Notifications, TempFiles, OrphanedFiles, OptimizeDatabase]

  /** The first two entries of the task list are the two modelled tasks. */
  lemma TaskIndex(i: int)
    requires 0 <= i < |Tasks|
    ensures Tasks[i] == DevisExpires <==> i == 0
    ensures Tasks[i] == FacturesBrouillon <==> i == 1
  {
    if i == 0 {} else if i == 1 {} else if i == 2 {} else if i == 3 {} else if i == 4 {} else {}
  }

  /** A task runs when forced, in a dry run, or when the operator confirms. */
  predicate Runs(force: bool, dryRun: bool, answer: bool) {
    force || dryRun || answer
  }

  /** The sum of the counts of the results (displayCleanupSummary's total). */
  function SumCounts(results: seq<(Task, nat)>): nat {
    if results == [] then 0 else SumCounts(results[..|results| - 1]) + results[|results| - 1].1
  }

  /** What the two modelled tasks of one run of handle report and leave: the
      two counts, the quote table after the expiry and after the purge, and
      the invoice and line tables after the purge. */
  datatype Tables = Tables(devisCount: nat, factureCount: nat, expired: seq<Devis>, unlinked: seq<Devis>,
                           factures: seq<Facture>, lignes: seq<Ligne>) {
    /** The expiry task's part, for the store before it runs. */
    ghost predicate ExpiryOf(s: Store, now: int, days: int, dryRun: bool, force: bool, answers: seq<bool>)
      requires |answers| == |Tasks|
      reads s
    {
      && devisCount == CountExpirable(s.devis, Cutoff(now, days))
      && expired == (if Runs(force, dryRun, answers[0]) && !dryRun then ExpireAll(s.devis, Cutoff(now, days)) else s.devis)
      && factureCount == |PurgedNumeros(s.factures, Cutoff(now, days), s.paiements)|
      && PurgeOf(s, expired, now, days, dryRun, force, answers)
    }

    /** The purge task's part, for the store's invoices, lines and payments
        and the quote table ds it finds. */
    ghost predicate PurgeOf(s: Store, ds: seq<Devis>, now: int, days: int, dryRun: bool, force: bool, answers: seq<bool>)
      requires |answers| == |Tasks|
      reads s
    {
      var purge := Runs(force, dryRun, answers[1]) && !dryRun;
      var ids := PurgedIds(s.factures, Cutoff(now, days), s.paiements);
      && factureCount == |PurgedNumeros(s.factures, Cutoff(now, days), s.paiements)|
      && unlinked == (if purge then Unlinked(ds, ids) else ds)
      && factures == (if purge then KeptFactures(s.factures, Cutoff(now, days), s.paiements) else s.factures)
      && lignes == (if purge then KeptLines(s.lignes, ids) else s.lignes)
    }
  }

  class Store {
    var devis: seq<Devis>
    var factures: seq<Facture>
    var lignes: seq<Ligne>
    var paiements: seq<Paiement>

    constructor (devis: seq<Devis>, factures: seq<Facture>, lignes: seq<Ligne>, paiements: seq<Paiement>)
      ensures this.devis == devis && this.factures == factures
      ensures this.lignes == lignes && this.paiements == paiements
    {
      this.devis := devis;
      this.factures := factures;
      this.lignes := lignes;
      this.paiements := paiements;
    }

    /** cleanupDevisExpires: the count is taken first; a real run marks each
        selected quote expire, a dry run only previews. */
    method CleanupDevisExpires(now: int, days: int, dryRun: bool) returns (r: TaskResult)
      modifies this
      ensures r.count == CountExpirable(old(devis), Cutoff(now, days))
      ensures !dryRun ==> devis == ExpireAll(old(devis), Cutoff(now, days))
      ensures !dryRun ==> r.details == Tagged(ExpirableNumeros(old(devis), Cutoff(now, days)), Mark)
      ensures dryRun ==> devis == old(devis) && r.details == Preview(ExpirableNumeros(old(devis), Cutoff(now, days)))
      ensures factures == old(factures) && lignes == old(lignes) && paiements == old(paiements)
    {
      var cutoff := Cutoff(now, days);
      var selected := ExpirableNumeros(devis, cutoff);
      var count := |selected|;
      var details: seq<Detail> := [];
      if count > 0 && !dryRun {
        details := ExpireSelected(cutoff);
      } else if count > 0 {
        details := PreviewLoop(selected);
      } else {
        NothingExpirable(devis, cutoff);
        assert Preview(selected) == [];
      }
      r := TaskResult(count, details);
    }

    /** The real-run branch: each selected quote, in table order, is marked
        expire and reported. */
    method ExpireSelected(cutoff: int) returns (details: seq<Detail>)
      modifies this
      ensures devis == ExpireAll(old(devis), cutoff)
      ensures details == Tagged(ExpirableNumeros(old(devis), cutoff), Mark)
      ensures factures == old(factures) && lignes == old(lignes) && paiements == old(paiements)
    {
      details := [];
      ghost var ds := devis;
      var i := 0;
      while i < |devis|
        invariant 0 <= i <= |devis| == |ds|
        invariant factures == old(factures) && lignes == old(lignes) && paiements == old(paiements)
        invariant forall j :: 0 <= j < i ==> devis[j] == ExpireOne(ds[j], cutoff)
        invariant forall j :: i <= j < |ds| ==> devis[j] == ds[j]
        invariant details == Tagged(ExpirableNumeros(ds[..i], cutoff), Mark)
      {
        assert ds[..i + 1][..i] == ds[..i];
        if Expirable(devis[i], cutoff) {
          TaggedSnoc(ExpirableNumeros(ds[..i], cutoff), devis[i].numero, Mark);
          details := details + [MarkedExpired(devis[i].numero)];
          devis := devis[i := devis[i].(statut := Expire)];
        }
        i := i + 1;
      }
      assert ds[..i] == ds;
    }

    /** The dry-run branch: at most five preview lines, then the remainder. */
    static method PreviewLoop(selected: seq<string>) returns (details: seq<Detail>)
      ensures details == Preview(selected)
    {
      var count := |selected|;
      var shown := if count < 5 then count else 5;
      details := [];
      var k := 0;
      while k < shown
        invariant 0 <= k <= shown
        invariant details == Tagged(selected[..k], Show)
      {
        TaggedSnoc(selected[..k], selected[k], Show);
        assert selected[..k + 1] == selected[..k] + [selected[k]];
        details := details + [WouldClean(selected[k])];
        k := k + 1;
      }
      if count > 5 {
        details := details + [AndOthers(count - 5)];
      }
    }

    /** cleanupFacturesBrouillon: the count is taken first; a real run deletes
        each selected invoice's lines, then the invoice. */
    method CleanupFacturesBrouillon(now: int, days: int, dryRun: bool) returns (r: TaskResult)
      modifies this
      ensures r.count == |PurgedNumeros(old(factures), Cutoff(now, days), old(paiements))|
      ensures !dryRun ==> factures == KeptFactures(old(factures), Cutoff(now, days), old(paiements))
      ensures !dryRun ==> lignes == KeptLines(old(lignes), PurgedIds(old(factures), Cutoff(now, days), old(paiements)))
      ensures !dryRun ==> r.details == Tagged(PurgedNumeros(old(factures), Cutoff(now, days), old(paiements)), Delete)
      ensures !dryRun ==> devis == Unlinked(old(devis), PurgedIds(old(factures), Cutoff(now, days), old(paiements)))
      ensures dryRun ==> devis == old(devis) && factures == old(factures) && lignes == old(lignes)
      ensures dryRun ==> r.details == Preview(PurgedNumeros(old(factures), Cutoff(now, days), old(paiements)))
      ensures paiements == old(paiements)
    {
      var cutoff := Cutoff(now, days);
      var selected := PurgedNumeros(factures, cutoff, paiements);
      var count := |selected|;
      var details: seq<Detail> := [];
      if count > 0 && !dryRun {
        details := DeleteSelected(cutoff);
      } else if count > 0 {
        details := PreviewLoop(selected);
      } else {
        assert details == Tagged(selected, Delete);
        NothingPurgeable(factures, cutoff, paiements);
        KeptLinesNone(lignes);
        UnlinkedNone(devis);
        assert Preview(selected) == [];
      }
      r := TaskResult(count, details);
    }

    /** The real run of cleanupFacturesBrouillon: for each selected invoice,
        in table order, its lines are deleted, then the invoice, which clears
        the quotes' links to it (ON DELETE SET NULL). */
    method DeleteSelected(cutoff: int) returns (details: seq<Detail>)
      modifies this
      ensures factures == KeptFactures(old(factures), cutoff, old(paiements))
      ensures lignes == KeptLines(old(lignes), PurgedIds(old(factures), cutoff, old(paiements)))
      ensures devis == Unlinked(old(devis), PurgedIds(old(factures), cutoff, old(paiements)))
      ensures details == Tagged(PurgedNumeros(old(factures), cutoff, old(paiements)), Delete)
      ensures paiements == old(paiements)
    {
      details := [];
      ghost var fs := factures;
      ghost var ls := lignes;
      ghost var ds := devis;
      KeptLinesNone(ls);
      UnlinkedNone(ds);
      assert PurgedIds(fs[..0], cutoff, paiements) == {};
      var i := 0;
      var j := 0;
      while j < |factures|
        invariant 0 <= i <= |fs|
        invariant paiements == old(paiements)
        invariant devis == Unlinked(ds, PurgedIds(fs[..i], cutoff, paiements))
        invariant factures == KeptFactures(fs[..i], cutoff, paiements) + fs[i..]
        invariant j == |KeptFactures(fs[..i], cutoff, paiements)|
        invariant lignes == KeptLines(ls, PurgedIds(fs[..i], cutoff, paiements))
        invariant details == Tagged(PurgedNumeros(fs[..i], cutoff, paiements), Delete)
        decreases |factures| - j
      {
        i, j, details := PurgeNext(fs, ls, ds, i, j, cutoff, details);
      }
      assert i == |fs|;
      assert fs[..i] == fs && fs[i..] == [];
      assert factures == KeptFactures(fs, cutoff, paiements) + [];
      assert factures == KeptFactures(fs, cutoff, paiements);
      assert lignes == KeptLines(ls, PurgedIds(fs, cutoff, paiements));
      assert devis == Unlinked(ds, PurgedIds(fs, cutoff, paiements));
    }

    /** One pass of the purge loop: the row at j, the i-th row of the
        original tables fs, ls and ds, is deleted with its lines and its
        quotes' links when it is selected, and the loop's state moves on to
        i + 1. */
    method PurgeNext(ghost fs: seq<Facture>, ghost ls: seq<Ligne>, ghost ds: seq<Devis>,
                     i: int, j: int, cutoff: int, details: seq<Detail>)
        returns (i': int, j': int, details': seq<Detail>)
      requires 0 <= i < |fs|
      requires factures == KeptFactures(fs[..i], cutoff, paiements) + fs[i..]
      requires j == |KeptFactures(fs[..i], cutoff, paiements)|
      requires lignes == KeptLines(ls, PurgedIds(fs[..i], cutoff, paiements))
      requires devis == Unlinked(ds, PurgedIds(fs[..i], cutoff, paiements))
      requires details == Tagged(PurgedNumeros(fs[..i], cutoff, paiements), Delete)
      modifies this
      ensures i' == i + 1
      ensures factures == KeptFactures(fs[..i'], cutoff, paiements) + fs[i'..]
      ensures j' == |KeptFactures(fs[..i'], cutoff, paiements)|
      ensures lignes == KeptLines(ls, PurgedIds(fs[..i'], cutoff, paiements))
      ensures devis == Unlinked(ds, PurgedIds(fs[..i'], cutoff, paiements))
      ensures details' == Tagged(PurgedNumeros(fs[..i'], cutoff, paiements), Delete)
      ensures paiements == old(paiements)
    {
      PurgeLoopStep(fs, i, cutoff, paiements);
      PurgeStep(fs, i, cutoff, paiements);
      var f := factures[j];
      ghost var ids := PurgedIds(fs[..i], cutoff, paiements);
      j', details' := j, details;
      if Purgeable(f, cutoff, paiements) {
        KeptLinesTwice(ls, ids, f.id);
        UnlinkedTwice(ds, ids, f.id);
        TaggedSnoc(PurgedNumeros(fs[..i], cutoff, paiements), f.numero, Delete);
        lignes := KeptLines(lignes, {f.id});
        factures := factures[..j] + factures[j + 1..];
        devis := Unlinked(devis, {f.id});
        details' := details + [DraftDeleted(f.numero)];
      } else {
        assert PurgedIds(fs[..i + 1], cutoff, paiements) == ids;
        assert PurgedNumeros(fs[..i + 1], cutoff, paiements) == PurgedNumeros(fs[..i], cutoff, paiements);
        j' := j + 1;
      }
      i' := i + 1;
    }

    /** handle: each task runs when forced, in a dry run or when confirmed,
        and its count is recorded; the other four tasks (notifications,
        files, optimisation) are not part of this model and report the counts
        given in external. A real run expires quotes first, then purges
        invoices, which also deletes their lines and clears the quotes'
        links to them. */
    method Handle(now: int, days: int, dryRun: bool, force: bool, answers: seq<bool>, external: Outside)
        returns (results: seq<(Task, nat)>, total: nat)
      requires |answers| == |Tasks|
      modifies this
      ensures results == Ran(6, force, dryRun, answers, CountExpirable(old(devis), Cutoff(now, days)),
                             |PurgedNumeros(old(factures), Cutoff(now, days), old(paiements))|, external)
      ensures total == SumCounts(results)
      ensures var expired := if Runs(force, dryRun, answers[0]) && !dryRun then ExpireAll(old(devis), Cutoff(now, days)) else old(devis);
              devis == if Runs(force, dryRun, answers[1]) && !dryRun
                       then Unlinked(expired, PurgedIds(old(factures), Cutoff(now, days), old(paiements)))
                       else expired
      ensures factures == if Runs(force, dryRun, answers[1]) && !dryRun then KeptFactures(old(factures), Cutoff(now, days), old(paiements)) else old(factures)
      ensures lignes == if Runs(force, dryRun, answers[1]) && !dryRun
                        then KeptLines(old(lignes), PurgedIds(old(factures), Cutoff(now, days), old(paiements)))
                        else old(lignes)
      ensures paiements == old(paiements)
    {
      var c := Cutoff(now, days);
      ghost var purge := Runs(force, dryRun, answers[1]) && !dryRun;
      ghost var ids := PurgedIds(factures, c, paiements);
      ghost var dc, fc := CountExpirable(devis, c), |PurgedNumeros(factures, c, paiements)|;
      ghost var d1 := if Runs(force, dryRun, answers[0]) && !dryRun then ExpireAll(devis, c) else devis;
      ghost var d2 := if purge then Unlinked(d1, ids) else d1;
      ghost var f1 := if purge then KeptFactures(factures, c, paiements) else factures;
      ghost var l1 := if purge then KeptLines(lignes, ids) else lignes;
      results := RunTasks(now, days, dryRun, force, answers, external, Tables(dc, fc, d1, d2, f1, l1));
      total := DisplayCleanupSummary(results);
    }

    /** handle's foreach over the six tasks. after holds what the two
        modelled tasks report and the tables they leave. */
    method RunTasks(now: int, days: int, dryRun: bool, force: bool, answers: seq<bool>, external: Outside, ghost after: Tables)
        returns (results: seq<(Task, nat)>)
      requires |answers| == |Tasks|
      requires after.ExpiryOf(this, now, days, dryRun, force, answers)
      requires after.PurgeOf(this, after.expired, now, days, dryRun, force, answers)
      modifies this
      ensures results == Ran(6, force, dryRun, answers, after.devisCount, after.factureCount, external)
      ensures devis == after.unlinked && factures == after.factures && lignes == after.lignes
      ensures paiements == old(paiements)
    {
      results := [];
      ghost var d0, f0, l0, p0 := devis, factures, lignes, paiements;
      var i := 0;
      while i < |Tasks|
        invariant 0 <= i <= |Tasks|
        invariant paiements == p0
        invariant devis == if i > 1 then after.unlinked else if i > 0 then after.expired else d0
        invariant factures == if i > 1 then after.factures else f0
        invariant lignes == if i > 1 then after.lignes else l0
        invariant results == Ran(i, force, dryRun, answers, after.devisCount, after.factureCount, external)
      {
        var entry := RunIfConfirmed(i, now, days, dryRun, force, answers, external, after);
        results := results + entry;
        i := i + 1;
      }
    }

    /** One pass of handle's loop: the i-th task is skipped unless forced, in
        a dry run or confirmed; otherwise it runs and its count is recorded.
        after is stated for the task at hand. */
    method RunIfConfirmed(i: int, now: int, days: int, dryRun: bool, force: bool, answers: seq<bool>, external: Outside,
                          ghost after: Tables)
        returns (entry: seq<(Task, nat)>)
      requires 0 <= i < |Tasks| == |answers|
      requires i == 0 ==> after.ExpiryOf(this, now, days, dryRun, force, answers)
      requires i == 1 ==> after.PurgeOf(this, devis, now, days, dryRun, force, answers)
      modifies this
      ensures Ran(i + 1, force, dryRun, answers, after.devisCount, after.factureCount, external)
              == Ran(i, force, dryRun, answers, after.devisCount, after.factureCount, external) + entry
      ensures devis == if i == 0 then after.expired else if i == 1 then after.unlinked else old(devis)
      ensures factures == if i == 1 then after.factures else old(factures)
      ensures lignes == if i == 1 then after.lignes else old(lignes)
      ensures paiements == old(paiements)
    {
      entry := [];
      if Runs(force, dryRun, answers[i]) {
        var count := RunTask(i, now, days, dryRun, external);
        TaskIndex(i);
        entry := [(Tasks[i], count)];
      }
      RanStep(i, force, dryRun, answers, after.devisCount, after.factureCount, external);
    }

    /** $this->$method($days, $dryRun) for the i-th task. */
    method RunTask(i: int, now: int, days: int, dryRun: bool, external: Outside) returns (count: nat)
      requires 0 <= i < |Tasks|
      modifies this
      ensures count == TaskCount(Tasks[i], CountExpirable(old(devis), Cutoff(now, days)),
                                 |PurgedNumeros(old(factures), Cutoff(now, days), old(paiements))|, external)
      ensures devis == if i == 0 && !dryRun then ExpireAll(old(devis), Cutoff(now, days))
                       else if i == 1 && !dryRun then Unlinked(old(devis), PurgedIds(old(factures), Cutoff(now, days), old(paiements)))
                       else old(devis)
      ensures factures == if i == 1 && !dryRun then KeptFactures(old(factures), Cutoff(now, days), old(paiements)) else old(factures)
      ensures lignes == if i == 1 && !dryRun then KeptLines(old(lignes), PurgedIds(old(factures), Cutoff(now, days), old(paiements))) else old(lignes)
      ensures paiements == old(paiements)
    {
      TaskIndex(i);
      if i == 0 {
        var r := CleanupDevisExpires(now, days, dryRun);
        count := r.count;
      } else if i == 1 {
        var r := CleanupFacturesBrouillon(now, days, dryRun);
        count := r.count;
      } else {
        count := external.Count(Tasks[i]);
      }
    }

    /** displayCleanupSummary's total: the counts of the tasks that ran. */
    static method DisplayCleanupSummary(results: seq<(Task, nat)>) returns (total: nat)
      ensures total == SumCounts(results)
    {
      total := 0;
      var k := 0;
      while k < |results|
        invariant 0 <= k <= |results|
        invariant total == SumCounts(results[..k])
      {
        assert results[..k + 1][..k] == results[..k];
        total := total + results[k].1;
        k := k + 1;
      }
      assert results[..k] == results;
    }
  }

  /** The count a task reports. */
  function TaskCount(t: Task, devisCount: nat, factureCount: nat, external: Outside): nat {
    if t == DevisExpires then devisCount else if t == FacturesBrouillon then factureCount else external.Count(t)
  }

  /** The results of the first n tasks: those that ran, with their counts. */
  function Ran(n: nat, force: bool, dryRun: bool, answers: seq<bool>, devisCount: nat, factureCount: nat, external: Outside): (r: seq<(Task, nat)>)
    requires n <= |Tasks| == |answers|
    ensures |r| <= n
  {
    if n == 0 then []
    else
      Ran(n - 1, force, dryRun, answers, devisCount, factureCount, external)
        + (if Runs(force, dryRun, answers[n - 1]) then [(Tasks[n - 1], TaskCount(Tasks[n - 1], devisCount, factureCount, external))] else [])
  }

  /** Ran grows by the entry of the next task, if it runs. */
  lemma RanStep(n: nat, force: bool, dryRun: bool, answers: seq<bool>, devisCount: nat, factureCount: nat, external: Outside)
    requires n < |Tasks| == |answers|
    ensures Ran(n + 1, force, dryRun, answers, devisCount, factureCount, external)
            == Ran(n, force, dryRun, answers, devisCount, factureCount, external)
               + (if Runs(force, dryRun, answers[n]) then [(Tasks[n], TaskCount(Tasks[n], devisCount, factureCount, external))] else [])
  {
  }

  /** A task's position in the task list. */
  function TaskPos(t: Task): (i: nat)
    ensures i < |Tasks| && Tasks[i] == t
  {
    match t
    case DevisExpires => 0
    case FacturesBrouillon => 1
    case Notifications => 2
    case TempFiles => 3
    case OrphanedFiles => 4
    case OptimizeDatabase => 5
  }

  /** The task list has no repeated task. */
  lemma TasksDistinct(i: int)
    requires 0 <= i < |Tasks|
    ensures TaskPos(Tasks[i]) == i
  {
    if i == 0 {} else if i == 1 {} else if i == 2 {} else if i == 3 {} else if i == 4 {} else {}
  }

  /** The task has an entry in the results. */
  predicate Listed(rs: seq<(Task, nat)>, t: Task) {
    exists k :: 0 <= k < |rs| && rs[k].0 == t
  }

  /** A task appears in the results exactly when it is among the first n and
      it ran. */
  lemma {:induction false} RanMembers(n: nat, force: bool, dryRun: bool, answers: seq<bool>, devisCount: nat, factureCount: nat, external: Outside, t: Task)
    requires n <= |Tasks| == |answers|
    ensures Listed(Ran(n, force, dryRun, answers, devisCount, factureCount, external), t)
            <==> TaskPos(t) < n && Runs(force, dryRun, answers[TaskPos(t)])
  {
    if n > 0 {
      var rs := Ran(n - 1, force, dryRun, answers, devisCount, factureCount, external);
      var rs' := Ran(n, force, dryRun, answers, devisCount, factureCount, external);
      RanMembers(n - 1, force, dryRun, answers, devisCount, factureCount, external, t);
      TasksDistinct(n - 1);
      var item := (Tasks[n - 1], TaskCount(Tasks[n - 1], devisCount, factureCount, external));
      assert rs' == rs + (if Runs(force, dryRun, answers[n - 1]) then [item] else []);
      if Listed(rs', t) {
        var k :| 0 <= k < |rs'| && rs'[k].0 == t;
        if k == |rs| {
          assert Runs(force, dryRun, answers[n - 1]);
          assert rs'[k] == item;
        } else {
          assert rs[k].0 == t;
          assert Listed(rs, t);
        }
      }
      if TaskPos(t) < n && Runs(force, dryRun, answers[TaskPos(t)]) {
        if TaskPos(t) == n - 1 {
          assert rs'[|rs|] == item;
        } else {
          var k :| 0 <= k < |rs| && rs[k].0 == t;
          assert rs'[k].0 == t;
        }
      }
    }
  }

  /** The summary total of the results is the term-by-term sum. */
  lemma {:induction false} RanSum(n: nat, force: bool, dryRun: bool, answers: seq<bool>, devisCount: nat, factureCount: nat, external: Outside)
    requires n <= |Tasks| == |answers|
    ensures SumCounts(Ran(n, force, dryRun, answers, devisCount, factureCount, external))
         == PartialTotal(n, force, dryRun, answers, devisCount, factureCount, external)
  {
    if n > 0 {
      RanSum(n - 1, force, dryRun, answers, devisCount, factureCount, external);
      var rs := Ran(n - 1, force, dryRun, answers, devisCount, factureCount, external);
      var item := (Tasks[n - 1], TaskCount(Tasks[n - 1], devisCount, factureCount, external));
      if Runs(force, dryRun, answers[n - 1]) {
        assert Ran(n, force, dryRun, answers, devisCount, factureCount, external) == rs + [item];
        assert (rs + [item])[..|rs|] == rs;
      } else {
        assert Ran(n, force, dryRun, answers, devisCount, factureCount, external) == rs + [] == rs;
      }
    }
  }

  /** The total handle prints: the counts of the tasks that ran. */
  lemma RanTotal(force: bool, dryRun: bool, answers: seq<bool>, devisCount: nat, factureCount: nat, external: Outside)
    requires |answers| == |Tasks|
    ensures SumCounts(Ran(6, force, dryRun, answers, devisCount, factureCount, external))
            == (if Runs(force, dryRun, answers[0]) then devisCount else 0)
             + (if Runs(force, dryRun, answers[1]) then factureCount else 0)
             + (if Runs(force, dryRun, answers[2]) then external.Count(Notifications) else 0)
             + (if Runs(force, dryRun, answers[3]) then external.Count(TempFiles) else 0)
             + (if Runs(force, dryRun, answers[4]) then external.Count(OrphanedFiles) else 0)
             + (if Runs(force, dryRun, answers[5]) then external.Count(OptimizeDatabase) else 0)
  {
    RanSum(6, force, dryRun, answers, devisCount, factureCount, external);
    assert PartialTotal(1, force, dryRun, answers, devisCount, factureCount, external)
        == (if Runs(force, dryRun, answers[0]) then devisCount else 0);
    assert PartialTotal(2, force, dryRun, answers, devisCount, factureCount, external)
        == PartialTotal(1, force, dryRun, answers, devisCount, factureCount, external) + (if Runs(force, dryRun, answers[1]) then factureCount else 0);
    assert PartialTotal(3, force, dryRun, answers, devisCount, factureCount, external)
        == PartialTotal(2, force, dryRun, answers, devisCount, factureCount, external) + (if Runs(force, dryRun, answers[2]) then external.Count(Notifications) else 0);
    assert PartialTotal(4, force, dryRun, answers, devisCount, factureCount, external)
        == PartialTotal(3, force, dryRun, answers, devisCount, factureCount, external) + (if Runs(force, dryRun, answers[3]) then external.Count(TempFiles) else 0);
    assert PartialTotal(5, force, dryRun, answers, devisCount, factureCount, external)
        == PartialTotal(4, force, dryRun, answers, devisCount, factureCount, external) + (if Runs(force, dryRun, answers[4]) then external.Count(OrphanedFiles) else 0);
    assert PartialTotal(6, force, dryRun, answers, devisCount, factureCount, external)
        == PartialTotal(5, force, dryRun, answers, devisCount, factureCount, external) + (if Runs(force, dryRun, answers[5]) then external.Count(OptimizeDatabase) else 0);
  }

  /** With --force (or --dry-run) every task runs, in order. */
  lemma ForcedRunsAll(n: nat, dryRun: bool, answers: seq<bool>, devisCount: nat, factureCount: nat, external: Outside)
    requires n <= |Tasks| == |answers|
    ensures |Ran(n, true, dryRun, answers, devisCount, factureCount, external)| == n
  {
  }

  /** Without --force or --dry-run, declining every prompt runs nothing. */
  lemma DeclinedRunsNone(n: nat, answers: seq<bool>, devisCount: nat, factureCount: nat, external: Outside)
    requires n <= |Tasks| == |answers|
    requires forall i :: 0 <= i < |answers| ==> !answers[i]
    ensures Ran(n, false, false, answers, devisCount, factureCount, external) == []
  {
  }

  /** The sum of the counts of the first n tasks that ran, term by term. */
  function PartialTotal(n: nat, force: bool, dryRun: bool, answers: seq<bool>, devisCount: nat, factureCount: nat, external: Outside): nat
    requires n <= |Tasks| == |answers|
  {
    if n == 0 then 0
    else PartialTotal(n - 1, force, dryRun, answers, devisCount, factureCount, external)
         + (if Runs(force, dryRun, answers[n - 1]) then TaskCount(Tasks[n - 1], devisCount, factureCount, external) else 0)
  }
}
