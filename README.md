# gestion-chantier1-devis: the business rules of quotes, invoices and projects

This project models, in Dafny, the business rules of a Laravel application that
manages building projects (*chantiers*), their quotes (*devis*), invoices
(*factures*) and payments (*paiements*). It also proves properties of those rules.
The modelled parts are:

- **Numbering** (module `Numbering`, from `app/Helpers/EntrepriseHelper.php`):
  - `generer_numero_devis` and `generer_numero_facture` as pure functions of the
    numbers already stored, the year and the numbering configuration;
  - the numbers are `DEV-{YYYY}-{NNN}` and `F-{YYYY}-{NNN}` with the shipped
    configuration.
- **Late penalties and reminder levels** (module `Penalties`):
  - `calculer_penalites_retard`: interest at 10 % a year plus the fixed 40 EUR
    recovery indemnity of article L441-6 of the French Code de commerce;
  - `determiner_niveau_relance`: the four-band classifier.
- **Identifier formatting** (module `Formatting`): `format_telephone`,
  `format_siret` and `format_iban`.
- **Schema** (module `Schema`):
  - the status enums of the quote, invoice and payment tables;
  - the line formulas documented in the line table's migration.
- **Quote authorisation** (module `Policy`): every method of `DevisPolicy`, with
  the user roles of `User`.
- **Maintenance sweeps** (module `Cleanup`):
  - the quote-expiry sweep and the stale draft-invoice purge of the
    `devis:cleanup` command;
  - its task loop and summary total.
  - A class `Store` holds the four tables and its methods update them in place.
- **Chantier rules** (module `Chantiers`):
  - the progress mean written back to `avancement_global`;
  - lateness, the status mappings, whether a new quote is allowed, and the
    billing ratios.
  - A class `Chantier` holds the record.
- **User management** (module `Admin`):
  - the last-admin guards and the effects of `updateUser`, `destroyUser`,
    `toggleUser` and `bulkAction`;
  - these act on a class `UserDirectory` whose field is the user table, a map
    from id to account.
- **Company settings** (module `Settings`):
  - the defaults/database merge;
  - the required-field scan and the completion statistics;
  - the `formatTelephone` collection macro.
- **Configuration gate** (module `Gate`): the redirect-or-pass decision of the
  `CheckEntrepriseConfiguration` middleware, with its wildcard route
  exclusions.
- **Document data** (module `Pdf`): the data preparation of `PdfService`:
  - the partition of lines by category and by VAT rate, with per-rate totals;
  - the valid payments ordered by date;
  - the revenue report totals and the cheque deposit slip.

Conventions:

- Money is in integer cents. Rates are in hundredths of a percent and
  quantities in hundredths.
- PHP's `round` is `Common.RoundDiv`, an exact division rounded half away from
  zero.
- Dates and timestamps are wall-clock seconds, `Common.DaySeconds` to the
  day; a date is the second of its midnight. The clock (`now()`), the
  database, the configuration read from the environment and the console's
  answers are parameters.

`app/Models/Chantier.php` closes its class at line 155. The relations and
methods on lines 158-227 therefore lie outside any class, and the file is not
valid PHP as written. The model treats them as the intended `Chantier` members.

Three behaviours of the user-management guards are proved as stated. They are
not corrected in the model:

- `updateUser` checks only the `active` flag. Changing the last active admin's
  role to `commercial` passes the guard and leaves no active admin
  (`Admin.UpdateCanDemoteLastActiveAdmin`).
- `destroyUser` counts all admins, active or not. It can delete the last
  active admin while an inactive admin remains
  (`Admin.DestroyCanRemoveLastActiveAdmin`).
- When the `active` field is absent from an update, the guard reads it as
  false but the stored value defaults to true.

## Model

| member | source | states |
|---|---|---|
| Common.RoundDiv | app/Helpers/EntrepriseHelper.php:279-281 | PHP `round` of the quotient n/d: the nearest integer, with halves going away from zero, for both signs of n |
| Common.PadLeft | app/Helpers/EntrepriseHelper.php:189 | `str_pad(..., STR_PAD_LEFT)` with '0': at least the width, never truncating, the input kept as the suffix and only zeros before it |
| Common.PaddedNumeralValue | app/Helpers/EntrepriseHelper.php:189 | a zero-padded decimal numeral is all digits and reads back as the same number |
| Common.IntCast | app/Helpers/EntrepriseHelper.php:174 | `(int)` of a string is non-negative when the string has no minus sign |
| Common.IntCastOfDigits | app/Helpers/EntrepriseHelper.php:174 | `(int)` of an all-digit string is its decimal value, leading zeros included |
| Numbering.LastNumber | app/Helpers/EntrepriseHelper.php:164-170 | the `LIKE prefix%` query ordered by numero descending: none exactly when no stored number has the prefix, otherwise a stored number with the prefix that is greatest in string order |
| Numbering.LastSegment | app/Helpers/EntrepriseHelper.php:173-174 | `end(explode('-', ...))`: the dash-free suffix of the number |
| Numbering.LastSegmentAfterDash | app/Helpers/EntrepriseHelper.php:173-174 | after a prefix that ends with '-', the last segment is exactly the rest of the number |
| Numbering.SequenceNumber | app/Helpers/EntrepriseHelper.php:172-177 | the next sequence number is at least 1 |
| Numbering.FirstNumberIsOne | app/Helpers/EntrepriseHelper.php:172-177 | with no stored number under `prefix-year-` (or `prefix-` without annual reset), the sequence is 1 |
| Numbering.NextAfterGreatest | app/Helpers/EntrepriseHelper.php:170-175 | otherwise the sequence is the integer value of the last segment of the string-greatest match, plus 1 |
| Numbering.LastTwo | app/Helpers/EntrepriseHelper.php:187 | `substr($annee, -2)`: the last two characters, or the whole string when shorter |
| Numbering.ReplaceAllHead | app/Helpers/EntrepriseHelper.php:180-194 | `str_replace` replaces an occurrence at the head and continues after it |
| Numbering.ReplaceAllAbsent | app/Helpers/EntrepriseHelper.php:180-194 | `str_replace` leaves a string without the token unchanged |
| Numbering.ShippedConfigsAreDefaultShaped | config/entreprise.php:82-95 | both shipped formats are `prefix-{YYYY}-{NNN}` with their own prefix |
| Numbering.FormatDefaultShape | app/Helpers/EntrepriseHelper.php:179-194 | substituting the tokens in `prefix-{YYYY}-{NNN}` gives prefix, year, '-', and the number padded to the width |
| Numbering.DefaultShapedFormat | app/Helpers/EntrepriseHelper.php:179-194 | with a default-shaped configuration, the substituted format is the search prefix followed by the zero-padded number |
| Numbering.GenerateNumber | app/Helpers/EntrepriseHelper.php:154-196 | the generated number substitutes the next sequence number into the format; with a default-shaped format it is the search prefix followed by the zero-padded sequence number |
| Numbering.GenererNumeroDevis | app/Helpers/EntrepriseHelper.php:154-196 | `DEV-`, the year, `-`, then the next sequence number padded to 3 digits (its read-back: Numbering.DevisNumberRoundTrip) |
| Numbering.GenererNumeroFacture | app/Helpers/EntrepriseHelper.php:204-246 | `F-`, the year, `-`, then the next sequence number padded to 3 digits (its read-back: Numbering.FactureNumberRoundTrip) |
| Numbering.Format | app/Helpers/EntrepriseHelper.php:179-194 | `str_replace` of {YYYY}, {YY}, {NNN}, {NN}, {N} in that order; a format with no brace comes out unchanged (the default shape: Numbering.FormatDefaultShape) |
| Numbering.SearchPrefix | app/Helpers/EntrepriseHelper.php:164-168 | the LIKE prefix, `prefix-year-` with annual reset and `prefix-` without; it ends with '-' (Numbering.SearchPrefixEndsWithDash) |
| Numbering.DevisNumberRoundTrip | app/Helpers/EntrepriseHelper.php:154-196 | a quote number is `DEV-` + year + `-` + n padded to 3 digits, and reading its last segment back gives n |
| Numbering.FactureNumberRoundTrip | app/Helpers/EntrepriseHelper.php:204-246 | an invoice number is `F-` + year + `-` + n padded to 3 digits, and reading its last segment back gives n |
| Numbering.SegmentReadsBack | app/Helpers/EntrepriseHelper.php:173-174 | the last segment of a generated number is its padded sequence number and casts back to n |
| Numbering.SearchPrefixEndsWithDash | app/Helpers/EntrepriseHelper.php:164-168 | the LIKE prefix ends with '-' |
| Numbering.LexLeDigits | app/Helpers/EntrepriseHelper.php:170 | between digit strings of one length, the string order of `orderBy('numero')` agrees with numeric order |
| Numbering.CanonicalSegment | app/Helpers/EntrepriseHelper.php:172-174 | a canonical stored number is truthy, and its last segment casts to the value of its digits |
| Numbering.GeneratedNumberFresh | app/Helpers/EntrepriseHelper.php:154-196 | as written, the generated number is not already stored, provided the stored numbers are canonical and the new sequence number fits the pad width |
| Numbering.DefaultConfigsFresh | app/Helpers/EntrepriseHelper.php:154-246 | with the shipped configuration and canonical numbers below 1000, neither generator repeats a stored number |
| Numbering.SequenceAfterNineHundredNinetyNine | app/Helpers/EntrepriseHelper.php:170-175 | with `…-999` and `…-1000` stored, the string-ordered last number is `…-999`, so the next sequence number is 1000 |
| Numbering.DuplicateAfterNineHundredNinetyNine | app/Helpers/EntrepriseHelper.php:170-175 | with `…-999` and `…-1000` stored, the quote generator returns `…-1000` again |
| Numbering.MaxSequence | app/Helpers/EntrepriseHelper.php:170-175 | the corrected lookup: the greatest sequence number among the matches, taken by value |
| Numbering.GeneratedNumberByValueFresh | app/Helpers/EntrepriseHelper.php:154-196 | the corrected generator never repeats a stored number, with no bound on the number or on the stored forms |
| Numbering.ByValueAgreesWhenCanonical | app/Helpers/EntrepriseHelper.php:170-175 | on canonical stored numbers, the corrected generator and the generator as written pick the same sequence number |
| Numbering.CanonicalLastIsMax | app/Helpers/EntrepriseHelper.php:170-175 | among canonical numbers under one prefix, the one greatest in string order (the ORDER BY numero DESC pick) carries the greatest sequence number |
| Penalties.LatePenaltiesWith | app/Helpers/EntrepriseHelper.php:257-285 | a reference instant at or before the due date's midnight gives all fields 0; any later instant gives the whole 24-hour periods late, the configured rate and indemnity, the penalty as PHP's round of amount × rate × days / 365 to the cent and the total as PHP's round of that unrounded penalty plus the indemnity, for either sign; with a non-negative amount, rate and indemnity the total is the rounded penalty plus the indemnity |
| Penalties.CalculerPenalitesRetard | app/Helpers/EntrepriseHelper.php:257-285 | with the shipped 10 % and 40 EUR: nothing before the due date; after it the whole days late, and for a non-negative amount a non-negative penalty and total = penalty + 40 EUR |
| Penalties.DueDateAfterMidnight | app/Helpers/EntrepriseHelper.php:259-283 | later on the due date itself: 0 days late, no penalty, but the 40 EUR indemnity and a 40 EUR total |
| Penalties.NegativeAmountTotalIsNotSum | app/Helpers/EntrepriseHelper.php:275-282 | the total rounds the unrounded sum, so a negative amount at a half cent (-0.25 EUR, 73 days) gives a penalty of -0.01 EUR and a total of 40.00 EUR, not 39.99 |
| Penalties.PenaltyNonNegative | app/Helpers/EntrepriseHelper.php:271-283 | for a non-negative amount, rate and indemnity, the penalty is non-negative and the total is the rounded penalty plus the indemnity |
| Penalties.PenaltyMonotoneInDays | app/Helpers/EntrepriseHelper.php:271-277 | for a non-negative amount, the penalty does not decrease as the reference date moves later |
| Penalties.ExampleSeventyThreeDays | app/Helpers/EntrepriseHelper.php:271-283 | 1000.00 EUR, 73 days late, shipped configuration: penalty 20.00 EUR, indemnity 40.00 EUR, total 60.00 EUR |
| Penalties.DeterminerNiveauRelance | app/Helpers/EntrepriseHelper.php:294-330 | with the shipped thresholds the level is the number of 15, 30 and 60 days reached, and the record is that level's row |
| Penalties.ReminderLevelWith | app/Helpers/EntrepriseHelper.php:294-330 | the level is 0..3 and carries its table row; level 0 exactly below the first threshold; level 3 exactly at or past all three |
| Penalties.LevelCountsThresholds | app/Helpers/EntrepriseHelper.php:300-329 | with ascending thresholds, the level is the number of thresholds reached |
| Penalties.LevelMonotone | app/Helpers/EntrepriseHelper.php:300-329 | with ascending thresholds, the level does not decrease with the days late |
| Penalties.ShippedBands | config/entreprise.php:109-111 | with 15/30/60 days: 14 gives aucune, 15 gives rappel_aimable, 30 gives relance_ferme, 60 gives mise_en_demeure |
| Formatting.KeepDigits | app/Helpers/EntrepriseHelper.php:97 | `preg_replace('/[^0-9]/', '', ...)`: only digits remain, and an all-digit string is unchanged |
| Formatting.FormatTelephone | app/Helpers/EntrepriseHelper.php:95-109 | exactly ten digits give five 2-digit groups separated by single spaces; any other count returns the input unchanged |
| Formatting.FormatSiret | app/Helpers/EntrepriseHelper.php:118-131 | exactly fourteen digits give 3-3-3-5 groups separated by single spaces; any other count returns the input unchanged |
| Formatting.KeepDigitsOfGroups | app/Helpers/EntrepriseHelper.php:95-131 | removing the separators of a grouping gives back the digits |
| Formatting.TelephoneIdempotent | app/Helpers/EntrepriseHelper.php:95-109 | formatting keeps the digits, and formatting a formatted number changes nothing |
| Formatting.SiretIdempotent | app/Helpers/EntrepriseHelper.php:118-131 | formatting keeps the digits, and formatting a formatted SIRET changes nothing |
| Formatting.CleanIban | app/Helpers/EntrepriseHelper.php:142 | `strtoupper(preg_replace('/[^\w]/', '', ...))`: only upper-case word characters remain, and a clean string is unchanged |
| Formatting.ChunkSplit | app/Helpers/EntrepriseHelper.php:144 | `chunk_split(..., 4, ' ')`: every character kept in place, a space after each group of four and at the end |
| Formatting.FormatIban | app/Helpers/EntrepriseHelper.php:140-146 | the cleaned IBAN laid out in 4-character groups, each followed by a space, as in the ISO 13616 paper format |
| Formatting.IbanUngroups | app/Helpers/EntrepriseHelper.php:140-146 | deleting the spaces of a formatted IBAN gives the cleaned string |
| Formatting.IbanIdempotent | app/Helpers/EntrepriseHelper.php:140-146 | formatting a formatted IBAN changes nothing |
| Schema.ParseDevisStatut | database/migrations/2024_01_07_000000_create_devis_table.php:21 | a stored quote statut reads back to the enum value of that name |
| Schema.ParseFactureStatut | database/migrations/2024_01_08_000000_create_factures_table.php:23 | a stored invoice statut reads back to the enum value of that name |
| Schema.ParsePaiementStatut | database/migrations/2024_01_10_000000_create_paiements_table.php:28 | a stored payment statut reads back to the enum value of that name |
| Schema.StatutNamesRoundTrip | database/migrations/2024_01_07_000000_create_devis_table.php:21 | every enum value of the three statut columns survives name then parse |
| Schema.LineHt | database/migrations/2024_01_09_000000_create_lignes_table.php:31 | montant_ht = quantite × prix_unitaire_ht to the cent: non-negative for non-negative inputs, exact for whole quantities |
| Schema.LineTva | database/migrations/2024_01_09_000000_create_lignes_table.php:32 | montant_tva = montant_ht × taux_tva / 100 to the cent, between 0 and montant_ht for rates in 0..100 % |
| Schema.ComputeLine | database/migrations/2024_01_09_000000_create_lignes_table.php:31-33 | montant_ttc − montant_ht = montant_tva, and 0 ≤ HT ≤ TTC ≤ 2 × HT for valid inputs |
| Schema.StandardRateExample | database/migrations/2024_01_09_000000_create_lignes_table.php:31-33 | at 20 %, whole quantities give HT = units × price and TTC = 1.2 × HT |
| Policy.ViewAny | app/Policies/DevisPolicy.php:15-33 | granted exactly to an admin, to a commercial who is the chantier's commercial, and to a client who is the chantier's client |
| Policy.View | app/Policies/DevisPolicy.php:38-56 | granted exactly to an admin, to the commercial who created the quote (its commercial_id), and to the client of the quote's chantier; never to a user without a role |
| Policy.Create | app/Policies/DevisPolicy.php:61-75 | granted only to an admin or a commercial |
| Policy.Update | app/Policies/DevisPolicy.php:80-94 | granted exactly when peutEtreModifie holds and the user is an admin or the commercial who created the quote |
| Policy.Delete | app/Policies/DevisPolicy.php:99-115 | never for an accepted or invoiced quote; a non-admin only on their own draft |
| Policy.Envoyer | app/Policies/DevisPolicy.php:120-134 | granted exactly on a brouillon quote, to an admin or the commercial who created it |
| Policy.Accepter | app/Policies/DevisPolicy.php:139-153 | granted exactly when peutEtreAccepte holds, to an admin or the client of the quote's chantier |
| Policy.Refuser | app/Policies/DevisPolicy.php:158-172 | granted exactly when peutEtreAccepte holds, to an admin or the client of the quote's chantier |
| Policy.Convertir | app/Policies/DevisPolicy.php:177-191 | granted exactly when peutEtreConverti holds, to an admin or the commercial who created the quote |
| Policy.Dupliquer | app/Policies/DevisPolicy.php:196-206 | granted exactly to an admin, to the commercial who created the quote, and to the commercial of its chantier |
| Policy.Signer | app/Policies/DevisPolicy.php:220-229 | granted exactly when peutEtreAccepte holds, to the client of the quote's chantier and to nobody else, admin included |
| Policy.RolesExclusive | app/Models/User.php:105-118 | no user is in two of the roles admin, commercial and client |
| Policy.AdminUnconditional | app/Policies/DevisPolicy.php:15-70 | an admin always gets viewAny, view, create, dupliquer and downloadPdf |
| Policy.StatusGuardsBindEveryone | app/Policies/DevisPolicy.php:80-191 | the status guards refuse every user, admin included: delete, envoyer, update, accepter/refuser/signer, convertir |
| Policy.AdminPastGuards | app/Policies/DevisPolicy.php:80-191 | for an admin, each guarded action is allowed exactly when its status guard holds |
| Policy.CommercialPastGuards | app/Policies/DevisPolicy.php:15-206 | a commercial lists the quotes of their chantier, views, updates, sends and converts the quotes they created (past each status guard), duplicates those and the quotes of their chantiers, and never accepts, refuses or signs |
| Policy.ClientPastGuards | app/Policies/DevisPolicy.php:15-229 | a client lists and views the quotes of their chantier, accepts, refuses and signs them when peutEtreAccepte holds, and is refused every staff action |
| Policy.DownloadPdf | app/Policies/DevisPolicy.php:211-215 | granted to exactly the users view grants: an admin, the quote's commercial, the chantier's client |
| Policy.CommercialDelete | app/Policies/DevisPolicy.php:99-115 | a commercial may delete exactly their own draft quote with no invoice |
| Policy.CreateByRole | app/Policies/DevisPolicy.php:61-75 | a client never creates; a commercial creates exactly on a chantier whose commercial they are |
| Policy.AccepterIsRefuser | app/Policies/DevisPolicy.php:139-172 | accepter and refuser give the same answer for every user and quote |
| Policy.SignerOnlyClient | app/Policies/DevisPolicy.php:220-229 | signer is never granted to an admin or commercial; signer implies accepter and equals it for a client |
| Policy.DownloadIsView | app/Policies/DevisPolicy.php:211-215 | downloadPdf equals view for every user and quote |
| Policy.ClientReach | app/Policies/DevisPolicy.php:38-206 | a client who is not the quote's chantier client is refused every action |
| Cleanup.Cutoff | app/Console/Commands/CleanupDevisFactures.php:85 | `Carbon::now()->subDays($days)`: the same wall-clock time, days earlier, an instant rather than a day |
| Cleanup.Expirable | app/Console/Commands/CleanupDevisFactures.php:87-89 | envoye, date_validite's midnight before the cutoff instant, no facture_id; its effect: Cleanup.ExpireOnlyStatut |
| Cleanup.CutoffDaySelected | app/Console/Commands/CleanupDevisFactures.php:85-89 | a quote valid until the cutoff's own day is selected exactly when the cutoff is not at midnight |
| Cleanup.ExpireAll | app/Console/Commands/CleanupDevisFactures.php:94-101 | the sweep's effect on the quote table: each row replaced by its expired form, order and length kept |
| Cleanup.ExpireOnlyStatut | app/Console/Commands/CleanupDevisFactures.php:87-99 | only statut changes (facture_id included), to expire, and a row changes exactly when it is selected: envoye, date_validite before the cutoff, no facture_id |
| Cleanup.ExpireCountIsChanged | app/Console/Commands/CleanupDevisFactures.php:91-99 | the count taken before the updates equals the number of rows changed |
| Cleanup.ExpireIdempotent | app/Console/Commands/CleanupDevisFactures.php:87-99 | sweeping twice is sweeping once, and the second sweep counts 0 |
| Cleanup.Preview | app/Console/Commands/CleanupDevisFactures.php:102-110 | a dry run lists at most five quotes, then "… et N autres" when more than five are selected |
| Cleanup.Store.PreviewLoop | app/Console/Commands/CleanupDevisFactures.php:103-110 | the preview loop builds exactly the preview |
| Cleanup.Store.ExpireSelected | app/Console/Commands/CleanupDevisFactures.php:94-101 | the update loop marks expire exactly the selected quotes, in table order, with one line each, and touches no other table |
| Cleanup.Store.CleanupDevisExpires | app/Console/Commands/CleanupDevisFactures.php:83-117 | count = number selected against the instant cutoff; a real run expires exactly the selected quotes with one line each; a dry run changes nothing; other tables untouched |
| Cleanup.Purgeable | app/Console/Commands/CleanupDevisFactures.php:123-125 | brouillon, created before the cutoff instant, and no payment of any statut; its effect: Cleanup.KeptFacturesMembers and Cleanup.PaidNeverPurged |
| Cleanup.KeptFactures | app/Console/Commands/CleanupDevisFactures.php:130-137 | the invoices the purge keeps, in table order, never more than before; exactly the unselected ones: Cleanup.KeptFacturesMembers |
| Cleanup.KeptFacturesMembers | app/Console/Commands/CleanupDevisFactures.php:123-136 | an invoice survives the purge exactly when it is not a brouillon created before the cutoff without payments |
| Cleanup.PurgedIdsMembers | app/Console/Commands/CleanupDevisFactures.php:123-136 | the purged ids are exactly those of the selected invoices |
| Cleanup.KeptLines | app/Console/Commands/CleanupDevisFactures.php:135 | the lines kept when the lines of the purged invoices are deleted, never more than before; exactly those: Cleanup.KeptLinesMembers |
| Cleanup.KeptLinesMembers | app/Console/Commands/CleanupDevisFactures.php:135 | a line survives exactly when it does not belong to a purged invoice |
| Cleanup.PaidNeverPurged | app/Console/Commands/CleanupDevisFactures.php:125 | an invoice with any payment is never deleted, nor are its lines |
| Cleanup.Unlinked | database/migrations/2024_01_07_000000_create_devis_table.php:49 | ON DELETE SET NULL on devis.facture_id: the quotes linked to a deleted invoice lose the link, and no other column or quote changes |
| Cleanup.UnlinkedTwice | database/migrations/2024_01_07_000000_create_devis_table.php:49 | deleting invoices one by one clears the same links as deleting them together |
| Cleanup.PurgeKeepsLinks | app/Console/Commands/CleanupDevisFactures.php:130-137 | if every quote's link named a stored invoice, after the purge every remaining link names a kept invoice |
| Cleanup.PurgeCountIsDeleted | app/Console/Commands/CleanupDevisFactures.php:127-136 | the count taken before the deletions equals the number of invoices deleted |
| Cleanup.PurgeIdempotent | app/Console/Commands/CleanupDevisFactures.php:123-136 | purging twice is purging once, and the second purge counts 0 |
| Cleanup.Store.DeleteSelected | app/Console/Commands/CleanupDevisFactures.php:130-138 | the delete loop removes each selected invoice's lines, then the invoice, which clears the quotes' links to it; payments untouched |
| Cleanup.Store.PurgeNext | app/Console/Commands/CleanupDevisFactures.php:133-138 | one pass of the delete loop keeps the loop's state: for the invoices seen so far, invoices, lines and quote links are as the purge prescribes, the rest untouched |
| Cleanup.Store.CleanupFacturesBrouillon | app/Console/Commands/CleanupDevisFactures.php:119-154 | count = number selected; a real run leaves the kept invoices and lines and clears the quotes' links to the purged invoices; a dry run changes nothing and previews |
| Cleanup.Store.RunTask | app/Console/Commands/CleanupDevisFactures.php:55 | dispatching task i runs that task and reports its count; task 0 expires quotes, task 1 purges invoices, their lines and the quotes' links; other tasks change no table |
| Cleanup.Store.DisplayCleanupSummary | app/Console/Commands/CleanupDevisFactures.php:336-341 | the total is the sum of the counts recorded |
| Cleanup.Store.RunIfConfirmed | app/Console/Commands/CleanupDevisFactures.php:49-55 | a task runs only when forced, in a dry run or confirmed; the results grow by exactly that task's entry, and each table is as the task leaves it |
| Cleanup.Store.RunTasks | app/Console/Commands/CleanupDevisFactures.php:46-65 | the foreach leaves the results of the tasks that ran, in list order, and the quote, invoice and line tables the two modelled tasks leave |
| Cleanup.Store.Handle | app/Console/Commands/CleanupDevisFactures.php:22-81 | tasks run in list order when forced, in a dry run, or when confirmed; results and total follow; a real run expires quotes, then purges invoices and their lines and clears the quotes' links; payments never change |
| Cleanup.RanMembers | app/Console/Commands/CleanupDevisFactures.php:47-56 | a task is in the results exactly when it ran, with its count |
| Cleanup.RanTotal | app/Console/Commands/CleanupDevisFactures.php:47-56 | the summary total is the sum of the counts of the tasks that ran; declined tasks add nothing |
| Cleanup.ForcedRunsAll | app/Console/Commands/CleanupDevisFactures.php:50 | with --force every task runs |
| Cleanup.DeclinedRunsNone | app/Console/Commands/CleanupDevisFactures.php:50 | without --force or --dry-run, declined tasks never run |
| Chantiers.MeanPercent | app/Models/Chantier.php:82-83 | the mean of the etape percentages, rounded to the hundredth |
| Chantiers.MeanInRange | app/Models/Chantier.php:82-86 | when every etape is within 0..100 %, so is the mean |
| Chantiers.MeanOfEqual | app/Models/Chantier.php:82-83 | etapes that are all at one percentage have that percentage as their mean |
| Chantiers.Chantier.CalculerAvancement | app/Models/Chantier.php:75-87 | no etapes: returns 0 and writes nothing; otherwise returns the mean and stores exactly it in avancement_global, within 0..100 % for valid etapes |
| Chantiers.Chantier.RetardClass | app/Models/Chantier.php:148-154 | the class is non-empty exactly when the chantier is late |
| Chantiers.Chantier.IsEnRetard | app/Models/Chantier.php:138-143 | late exactly when a planned end exists, its midnight is before now, and the statut is not termine; proved facts in Chantiers.LatenessFacts and Chantiers.Chantier.RetardClass |
| Chantiers.LatenessFacts | app/Models/Chantier.php:138-143 | a finished chantier, or one with no planned end, is never late; a late chantier stays late as time passes |
| Chantiers.StatutBadgeClass | app/Models/Chantier.php:92-100 | unknown statuts take the default gray badge, as planifie does |
| Chantiers.ProgressBarColor | app/Models/Chantier.php:105-113 | unknown statuts take the default gray bar |
| Chantiers.StatutIcon | app/Models/Chantier.php:118-126 | unknown statuts take question-mark-circle |
| Chantiers.StatutTexte | app/Models/Chantier.php:128-136 | unknown statuts take Inconnu |
| Chantiers.MappingsSeparateKnown | app/Models/Chantier.php:118-136 | the three known statuts have distinct icons and texts, none of them the default |
| Chantiers.PlanifieLooksUnknown | app/Models/Chantier.php:92-136 | an unknown statut shares planifie's badge and bar but not its icon or text |
| Chantiers.PeutAvoirNouveauDevis | app/Models/Chantier.php:224-227 | planifie or en_cours; Chantiers.NewQuoteOnlyWhenOpen proves this is exactly the known, unfinished statuts |
| Chantiers.NewQuoteOnlyWhenOpen | app/Models/Chantier.php:224-227 | a new quote is allowed exactly for planifie and en_cours |
| Chantiers.RatioTenths | app/Models/Chantier.php:208 | `round(part / whole × 100, 1)` in tenths of a percent, and 0 when the denominator is not positive |
| Chantiers.RatioOfPart | app/Models/Chantier.php:203-217 | a part of a whole gives 0..100 %; the whole gives 100 %; nothing gives 0 |
| Chantiers.AcceptedQuotes | app/Models/Chantier.php:177-180 | devisAcceptes holds each accepte quote of the chantier exactly as many times as it is stored, and nothing else |
| Chantiers.AcceptedQuoteAmounts | app/Models/Chantier.php:187-190 | the amounts summed by getMontantTotalDevisAttribute: one TTC per accepted quote of the chantier, position by position, so a repeated amount is counted once per quote |
| Chantiers.AcceptedAmountsMembers | app/Models/Chantier.php:187-190 | every amount summed is the TTC of an accepted quote of the chantier, and every such quote's TTC is summed |
| Chantiers.InvoicesOf | app/Models/Chantier.php:167-170 | the chantier's invoices: each invoice whose chantier_id is the chantier's, exactly as many times as it is stored, and no other |
| Chantiers.PaidSumWithinTtcSum | app/Models/Chantier.php:211-216 | when no invoice is overpaid, total paid ≤ total TTC |
| Chantiers.PaidRatioInRange | app/Models/Chantier.php:211-217 | with invoices neither overpaid nor negative, paid over invoiced TTC lies in 0..100 % |
| Chantiers.TauxPaiement | app/Models/Chantier.php:211-217 | getTauxPaiementAttribute: when the chantier's own invoices are neither overpaid nor negative, the payment rate lies in 0..100 %, whatever the other chantiers' invoices hold |
| Chantiers.InvoicesOfKeeps | app/Models/Chantier.php:167-170 | when no invoice of the table is overpaid or negative, neither is any invoice of one chantier |
| Chantiers.AvancementFacturation | app/Models/Chantier.php:203-209 | getAvancementFacturationAttribute: without accepted quotes the billing progress is 0, whatever has been invoiced |
| Admin.DestroyRefusal | app/Http/Controllers/AdminController.php:158-165 | deletion proceeds exactly when the user is not the only admin and is linked to no chantier |
| Admin.Updated | app/Http/Controllers/AdminController.php:150-153 | the stored account takes name, email and role from the request, and active defaults to true |
| Admin.ActiveAdminsUpdate | app/Http/Controllers/AdminController.php:146 | how writing one account changes the set of active admins |
| Admin.AdminsUpdate | app/Http/Controllers/AdminController.php:160 | how writing one account changes the set of admins |
| Admin.AdminsRemove | app/Http/Controllers/AdminController.php:160-167 | deleting one account removes only it from the admin sets |
| Admin.ToggleKeepsActiveAdmin | app/Http/Controllers/AdminController.php:171-178 | a toggle the guard lets through never leaves zero active admins |
| Admin.DestroyKeepsAdmin | app/Http/Controllers/AdminController.php:158-169 | a deletion the guard lets through never leaves zero admins |
| Admin.DestroyCanRemoveLastActiveAdmin | app/Http/Controllers/AdminController.php:160 | the deletion guard counts all admins, so it can delete the only active admin |
| Admin.UpdateKeepsActiveAdminWhenRoleKept | app/Http/Controllers/AdminController.php:145-153 | an update that keeps the admin role never leaves zero active admins |
| Admin.UpdateCanDemoteLastActiveAdmin | app/Http/Controllers/AdminController.php:146 | the update guard ignores the role, so the only active admin can be made commercial |
| Admin.BulkStep | app/Http/Controllers/AdminController.php:234-243 | a user is counted exactly when they exist and pass their case's guard (activate: inactive; deactivate: active and not the last active admin; delete: not the last admin and linked to no chantier), and exactly when the table changes: a counted activation turns an inactive account active, a counted deactivation turns an active one inactive, a counted deletion removes exactly that user; an uncounted one leaves the table as it was |
| Admin.BulkRun | app/Http/Controllers/AdminController.php:231-244 | the count is at most the number of selected users |
| Admin.BulkDeactivateKeepsActiveAdmin | app/Http/Controllers/AdminController.php:236-238 | with the live recount, a bulk deactivate never removes the last active admin |
| Admin.BulkDeleteKeepsAdmin | app/Http/Controllers/AdminController.php:239-242 | with the live recount, a bulk delete never removes the last admin |
| Admin.BulkDeleteKeepsLinked | app/Http/Controllers/AdminController.php:239-242 | a bulk delete keeps every user linked to a chantier, unchanged, and adds nobody |
| Admin.BulkDeactivateOnlyDeactivates | app/Http/Controllers/AdminController.php:236-238 | a bulk deactivate keeps every user and changes at most their active flag, to false |
| Admin.BulkActivateOnlyActivates | app/Http/Controllers/AdminController.php:235 | a bulk activate keeps every user, deactivates nobody and never lowers the set of active admins |
| Admin.UserDirectory.ToggleUser | app/Http/Controllers/AdminController.php:171-178 | refused for the only active admin; otherwise flips exactly that user's active flag |
| Admin.UserDirectory.DestroyUser | app/Http/Controllers/AdminController.php:158-169 | refused for the only admin or a linked user, with the source's message; otherwise removes exactly that user |
| Admin.UserDirectory.UpdateUser | app/Http/Controllers/AdminController.php:133-156 | refused when deactivating an admin while at most one admin is active; otherwise stores the updated account |
| Admin.UserDirectory.BulkApply | app/Http/Controllers/AdminController.php:234-243 | one user's action changes the table exactly as the step function prescribes, and reports whether it counted |
| Admin.UserDirectory.BulkAction | app/Http/Controllers/AdminController.php:223-247 | the loop's table and count are the fold of the per-user steps, so a user is counted and changed exactly when they pass their case's guard (Admin.BulkStep) and a linked user survives a delete (Admin.BulkDeleteKeepsLinked); count ≤ selection; deactivate and delete keep an (active) admin |
| Settings.DatabaseSettings | app/Providers/EntrepriseServiceProvider.php:100-105 | the row's columns with configured, logo_url and logo_path set |
| Settings.Filled | app/Providers/EntrepriseServiceProvider.php:108-110 | array_filter keeps exactly the entries that are neither null nor '' |
| Settings.LoadSettings | app/Providers/EntrepriseServiceProvider.php:84-117 | no table, no row or an exception gives the defaults; otherwise every default key, with a database value overriding it only when neither null nor '', and database-only keys added |
| Settings.DefaultsSurvive | app/Providers/EntrepriseServiceProvider.php:98-110 | every default key is present after the merge, with its default value when the database leaves it absent or blank |
| Settings.ConfiguredAlwaysMerged | app/Providers/EntrepriseServiceProvider.php:103-110 | after a read, the merged settings carry the computed configured flag |
| Settings.Empty | app/Providers/EntrepriseServiceProvider.php:267 | PHP `empty()`: null, "", "0", 0 and false; used by Settings.MissingMembers and Settings.CompletedPlusMissing |
| Settings.Missing | app/Providers/EntrepriseServiceProvider.php:264-270 | at most one entry per field; which fields and their order: Settings.MissingMembers and Settings.MissingInOrder |
| Settings.Completed | app/Providers/EntrepriseServiceProvider.php:284-291 | at most the number of fields; with the missing ones they make all fields: Settings.CompletedPlusMissing |
| Settings.MissingMembers | app/Providers/EntrepriseServiceProvider.php:266-270 | a field is reported missing exactly when it is required and empty |
| Settings.MissingInOrder | app/Providers/EntrepriseServiceProvider.php:262-272 | the missing fields come in the order nom, adresse, telephone, email, siret |
| Settings.CompletedPlusMissing | app/Providers/EntrepriseServiceProvider.php:284-300 | completed fields plus missing fields make all required fields |
| Settings.GetMissingRequiredFields | app/Providers/EntrepriseServiceProvider.php:260-273 | the loop returns exactly the empty required fields, in order |
| Settings.GetConfigurationStats | app/Providers/EntrepriseServiceProvider.php:278-315 | completed + missing = 5; percentage = 20 × completed; configured exactly when nothing is missing; the fixed fallback on exception |
| Settings.FormatTelephoneMacro | app/Providers/EntrepriseServiceProvider.php:145-161 | the macro applies the helper's ten-digit rule to its argument, or to the collection's first element when the argument is null; null exactly when both are (an empty collection) |
| Gate.Matches | app/Http/Middleware/CheckEntrepriseConfiguration.php:44 | `routeIs` on one pattern: whole-name glob matching with `*`; its properties are Gate.LiteralMatches, Gate.StarMatchesAll and Gate.PrefixStarMatches |
| Gate.Excluded | app/Http/Middleware/CheckEntrepriseConfiguration.php:43-47 | the foreach: some pattern matches the route name; no name matches nothing; the excluded pages: Gate.EntreprisePagesExcluded, Gate.SettingsRouteExcluded, Gate.LoginIsExact |
| Gate.IsEntrepriseConfigured | app/Http/Middleware/CheckEntrepriseConfiguration.php:66-75 | the settings' answer, and true when the check throws; its effect on the redirect is in Gate.Handle |
| Gate.LiteralMatches | app/Http/Middleware/CheckEntrepriseConfiguration.php:44 | a pattern without '*' matches only itself |
| Gate.StarMatchesAll | app/Http/Middleware/CheckEntrepriseConfiguration.php:44 | '*' matches every route name |
| Gate.PrefixStarMatches | app/Http/Middleware/CheckEntrepriseConfiguration.php:16-23 | `prefix*` matches exactly the names that start with prefix |
| Gate.EntreprisePagesExcluded | app/Http/Middleware/CheckEntrepriseConfiguration.php:17 | every admin.entreprise.* route is excluded |
| Gate.SettingsRouteExcluded | app/Http/Middleware/CheckEntrepriseConfiguration.php:17 | the settings route itself is excluded |
| Gate.LoginIsExact | app/Http/Middleware/CheckEntrepriseConfiguration.php:19 | the login pattern excludes the login route only |
| Gate.Handle | app/Http/Middleware/CheckEntrepriseConfiguration.php:30-75 | redirect to admin.entreprise.settings with the warning exactly when not AJAX/JSON, admin, not excluded and not configured; AJAX/JSON, guests, non-admins and a failing check pass |
| Gate.RedirectTargetPasses | app/Http/Middleware/CheckEntrepriseConfiguration.php:50-57 | following the redirect reaches a page the gate lets through |
| Pdf.TotalConcat | app/Services/PdfService.php:79-81 | a sum over a concatenation is the sum of the sums |
| Pdf.Insert | app/Services/PdfService.php:74 | adding an item to its group adds exactly that item to the flattened groups |
| Pdf.InsertShape | app/Services/PdfService.php:74 | keys stay distinct; a known key's group gets the item at its end; a new key opens a new last group |
| Pdf.GroupBy | app/Services/PdfService.php:74 | `groupBy` loses and duplicates no item |
| Pdf.GroupByTotal | app/Services/PdfService.php:77-83 | the group totals add up to the total of all items |
| Pdf.GroupByPartition | app/Services/PdfService.php:74-83 | distinct keys; each group holds, in order, exactly the items of its key; a group exists exactly for each key that occurs |
| Pdf.ExactlyOneGroup | app/Services/PdfService.php:74-83 | each item lies in exactly one group |
| Pdf.TotauxParTaux | app/Services/PdfService.php:77-83 | one HT/TVA/TTC total per VAT-rate group |
| Pdf.SumOfTotaux | app/Services/PdfService.php:77-83 | the per-rate totals add up to the document's line totals |
| Pdf.PrepareLines | app/Services/PdfService.php:73-83 | the lines are kept; the category groups partition them; the per-rate totals add up to the line totals |
| Pdf.PreparerDonneesDevis | app/Services/PdfService.php:58-96 | quote data: no payments, and per-rate totals summing to the line totals |
| Pdf.ValidOnly | app/Services/PdfService.php:104 | exactly the payments with statut valide |
| Pdf.InsertByDate | app/Services/PdfService.php:104 | inserting a payment into a date-ordered list keeps it ordered and adds exactly that payment |
| Pdf.SortByDate | app/Services/PdfService.php:104 | `orderBy('date_paiement')`: ordered by date, a permutation of the input |
| Pdf.ValidByDate | app/Services/PdfService.php:103-105 | the valid payments, ordered by date |
| Pdf.ValidByDateMembers | app/Services/PdfService.php:103-105 | a payment is listed exactly when it is valid |
| Pdf.PreparerDonneesFacture | app/Services/PdfService.php:101-139 | invoice data: per-rate totals summing to the line totals; only valid payments, ordered by date, none lost |
| Pdf.RapportTotals | app/Services/PdfService.php:185-206 | total_impaye = total_ttc − total_paye and nombre_factures = number of invoices |
| Pdf.RapportAdditive | app/Services/PdfService.php:185-206 | the report totals of two invoice lists add up |
| Pdf.ImpayeNonNegative | app/Services/PdfService.php:204 | when no invoice is overpaid, the unpaid total is non-negative |
| Pdf.TotalDifference | app/Services/PdfService.php:204 | the unpaid total is the sum of each invoice's TTC minus paid |
| Pdf.FacturesParStatut | app/Services/PdfService.php:193 | grouping by statut keeps every invoice, and the groups' TTC adds up to the report's total |
| Pdf.BordereauRemise | app/Services/PdfService.php:270-271 | nombre_cheques = number of payments; total_remise is 0 for none and non-negative for non-negative amounts |
| Pdf.BordereauAdditive | app/Services/PdfService.php:270 | the remittance totals of two payment lists add up |

## Left out

- Database access is replaced by inputs:
  - the "last number" query is a sequence of existing numbers;
  - the tables are a class's fields;
  - a query's result order is the table's order.
- SQL `LIKE` is a literal prefix test. `ORDER BY numero` is code-point order.
- Concurrent number assignment is not modelled: two requests could read the same last number.
- Numbering: the `{NN}` and `{N}` tokens are substituted by `Numbering.Format`. The freshness lemmas cover only the shipped format shape `prefix-{YYYY}-{NNN}`.
- Penalties.LatePenaltiesWith: `diffInDays` counts whole 24-hour periods, as Carbon 2 does. Under Carbon 3 it is signed and fractional, so this is an assumption. The wall clock has no daylight-saving jumps.
- Penalties.LatePenaltiesWith: amounts are exact in cents rather than floats. The rate and indemnity are parameters (their defaults are the shipped configuration).
- Chantiers.Chantier.CalculerAvancement: the mean is rounded to the hundredth of a percent, the precision of the `avancement_global` column. The source returns the unrounded float.
- Chantiers.Chantier.IsEnRetard: `isPast()` compares with the clock, which is a parameter `now`. A date is its midnight.
- Chantiers: the billing amounts come from the Devis and Facture models, which are not part of this model; their amounts are inputs.
- Policy: `peutEtreModifie`, `peutEtreAccepte` and `peutEtreConverti` live in the Devis model, which is not part of this model. They are boolean inputs.
- Cleanup: the notification, temporary-file, orphaned-file and database-optimisation tasks are filesystem or database maintenance. Their counts are a parameter `external` of type `Outside`.
- Cleanup.Store.CleanupFacturesBrouillon: the quotes' links are cleared as the foreign key of `database/migrations/2024_01_07_000000_create_devis_table.php:49` and `app/Console/Commands/InstallDevis.php:219` prescribes. `app/Console/Commands/FixDevis.php:220` creates the column without a foreign key; under that schema the links would be left pointing at deleted invoices.
- Cleanup: the console output, `diffForHumans` texts and freed-space totals are left out. Preview lines carry the quote or invoice number only.
- Admin.UserDirectory.UpdateUser: request validation is taken as passed (role in admin/commercial/client, unique email, password rules). The password, telephone and address fields are not modelled.
- Admin.UserDirectory.DestroyUser: the database effects of deleting a user are not modelled. The quotes and invoices whose `commercial_id` is the user are deleted by cascade (devis and factures migrations, line 16), and with them those invoices' payments (paiements migration, line 14). `paiements.saisi_par` (paiements migration, line 32) has no `onDelete`, so deleting a user who recorded a payment fails with an integrity error; the model answers Done.
- Admin.UserDirectory.BulkAction: the same cascades and the same integrity failure apply to each deletion. A failure aborts the loop with the earlier deletions already made and no count reported; the model carries on.
- Admin.UserDirectory.BulkAction: the selected users are processed in the order of the id list. The list has no duplicates, as the `whereIn` query returns each user once.
- Common.IntCast: PHP 8's `(int)` also reads a leading exponent form ("1e3" is 1000) and saturates at PHP_INT_MAX. Neither is modelled; the numbering only casts the all-digit segments it generates.
- Settings: the cache, the View composer, `getForPdf`, `clearCache`, `reload`, `updateSettings` and the `formatEuro`/`formatPourcentage` macros are left out (caching, views, floating-point formatting).
- Settings: `EntrepriseSettings::isConfigured` and the defaults read from the environment are inputs.
- Gate.Matches: Laravel's `routeIs` matching is modelled as whole-name glob matching in which only `*` is special.
- Pdf: DomPDF rendering, Blade views, the company block read from configuration and `genererLettreRelance` are left out.
- Pdf: the month grouping of the revenue report formats dates, so it is left out.
- Pdf: sorting payments of equal date keeps their input order (the database does not specify one).
- Pdf: a null `categorie` groups under the empty string.
- `format_euro` and `format_pourcentage` are floating-point `number_format`, so they are left out.
- The quote and invoice models, their controllers and line calculator, the payment ledger and the quote-to-invoice conversion are not part of this model. Only their schema enums and the line formulas of the migration are modelled.

## Findings

| source | as written | input that shows it | evidently intended | confidence | as-written member | corrected member |
|---|---|---|---|---|---|---|
| app/Helpers/EntrepriseHelper.php:170-175 | the last number is the greatest stored number in string order, and its last segment is incremented | quotes `DEV-2024-999` and `DEV-2024-1000` stored: "1000" sorts below "999", so the next quote is `DEV-2024-1000` again | the next number follows the greatest sequence number by value, so it is never a stored number | not executed | Numbering.DuplicateAfterNineHundredNinetyNine | Numbering.GeneratedNumberByValueFresh |
