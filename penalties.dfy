/** Late-payment penalties and the reminder level: calculer_penalites_retard
    and determiner_niveau_relance of app/Helpers/EntrepriseHelper.php.
    Amounts are integer cents, the annual rate is in hundredths of a percent
    and the due date and the reference are wall-clock seconds (the due date,
    a date, is its midnight); the reference (`now()` when absent) is an
    input. */
module Penalties {
  import opened Common

  /** taux_penalites_retard of config/entreprise.php: 10.00 % a year. */
  const DefaultRateHundredths: int := 1000
  /** indemnite_recouvrement: the fixed 40 EUR recovery indemnity of article
      L441-6 of the French Code de commerce. */
  const DefaultIndemnityCents: int := 4000

  /** The common denominator: percent (100), rate hundredths (100), days a
      year (365), with the result in cents. */
  const Denominator: int := 100 * 100 * 365

  /** The array the helper returns. */
  datatype PenaltyRecord = PenaltyRecord(
    daysLate: nat,
    annualRateHundredths: int,
    penaltyCents: int,
    indemnityCents: int,
    totalCents: int)

  const NoPenalty := PenaltyRecord(0, 0, 0, 0, 0)

  /** The whole days between two instants, the later one second: Carbon's
      diffInDays, which counts complete periods of 24 hours. */
  function WholeDays(earlier: int, later: int): (n: nat)
    requires earlier <= later
    ensures n * DaySeconds <= later - earlier < (n + 1) * DaySeconds
  {
    (later - earlier) / DaySeconds
  }

  /** calculer_penalites_retard with the rate and indemnity as parameters.
      The instants are compared first: any reference after the due date's
      midnight is late. The penalty is amount * rate/100 * days/365 rounded
      to the cent; the total rounds the unrounded penalty plus the
      indemnity. */
  function LatePenaltiesWith(rate: int, indemnity: int, amountCents: int, due: int, reference: int): (r: PenaltyRecord)
    ensures reference <= due ==> r == NoPenalty
    ensures reference > due ==>
              && r.daysLate * DaySeconds <= reference - due < (r.daysLate + 1) * DaySeconds
              && r.annualRateHundredths == rate
              && r.indemnityCents == indemnity
    ensures reference > due ==>
              var exact := amountCents * rate * r.daysLate;
              && RoundsTo(r.penaltyCents, exact, Denominator)
              && RoundsTo(r.totalCents, exact + indemnity * Denominator, Denominator)
    ensures reference > due && amountCents >= 0 && rate >= 0 && indemnity >= 0 ==>
              r.totalCents == r.penaltyCents + r.indemnityCents
  {
    if reference <= due then NoPenalty
    else
      var days := WholeDays(due, reference);
      var exact := amountCents * rate * days;
      if amountCents >= 0 && rate >= 0 && indemnity >= 0 then
        assert amountCents * rate >= 0;
        assert exact >= 0;
        RoundDivShift(exact, indemnity, Denominator);
        PenaltyRecord(days, rate, RoundDiv(exact, Denominator), indemnity,
                      RoundDiv(exact + indemnity * Denominator, Denominator))
      else
        PenaltyRecord(days, rate, RoundDiv(exact, Denominator), indemnity,
                      RoundDiv(exact + indemnity * Denominator, Denominator))
  }

  /** The total rounds the unrounded penalty plus the indemnity, so for a
      negative amount (a credit) it can differ from the rounded penalty plus
      the indemnity: -0.25 EUR at 73 days gives a penalty of -0.005 EUR,
      rounded to -0.01, while the total 39.995 EUR rounds to 40.00. */
  lemma NegativeAmountTotalIsNotSum(due: int)
    ensures var r := CalculerPenalitesRetard(-25, due, due + 73 * DaySeconds);
            && r.penaltyCents == -1
            && r.totalCents == DefaultIndemnityCents
            && r.totalCents != r.penaltyCents + r.indemnityCents
  {
    var r := CalculerPenalitesRetard(-25, due, due + 73 * DaySeconds);
    assert WholeDays(due, due + 73 * DaySeconds) == 73;
    assert r.penaltyCents == RoundDiv(-1825000, Denominator);
    assert r.totalCents == RoundDiv(-1825000 + 4000 * Denominator, Denominator);
  }

  /** The helper with the shipped configuration: 10 % a year and 40 EUR;
      for a non-negative amount the total is the penalty plus 40 EUR. */
  function CalculerPenalitesRetard(amountCents: int, due: int, reference: int): (r: PenaltyRecord)
    ensures reference <= due ==> r == NoPenalty
    ensures reference > due ==>
              && r.daysLate == WholeDays(due, reference)
              && r.annualRateHundredths == DefaultRateHundredths
              && r.indemnityCents == DefaultIndemnityCents
    ensures amountCents >= 0 && reference > due ==>
              r.penaltyCents >= 0 && r.totalCents == r.penaltyCents + DefaultIndemnityCents
  {
    if amountCents >= 0 then
      PenaltyNonNegative(DefaultRateHundredths, DefaultIndemnityCents, amountCents, due, reference);
      LatePenaltiesWith(DefaultRateHundredths, DefaultIndemnityCents, amountCents, due, reference)
    else
      LatePenaltiesWith(DefaultRateHundredths, DefaultIndemnityCents, amountCents, due, reference)
  }

  /** A non-negative amount never gives a negative penalty, and then the total
      is exactly the rounded penalty plus the indemnity. */
  lemma PenaltyNonNegative(rate: int, indemnity: int, amountCents: int, due: int, reference: int)
    requires amountCents >= 0 && rate >= 0 && indemnity >= 0
    ensures var r := LatePenaltiesWith(rate, indemnity, amountCents, due, reference);
            && r.penaltyCents >= 0
            && r.totalCents == r.penaltyCents + r.indemnityCents
  {
    if reference > due {
      var days := WholeDays(due, reference);
      assert amountCents * rate >= 0;
      assert amountCents * rate * days >= 0;
      RoundDivShift(amountCents * rate * days, indemnity, Denominator);
    }
  }

  /** More days late never lowers the penalty of a non-negative amount. */
  lemma PenaltyMonotoneInDays(amountCents: int, due: int, ref1: int, ref2: int)
    requires amountCents >= 0 && ref1 <= ref2
    ensures CalculerPenalitesRetard(amountCents, due, ref1).penaltyCents
         <= CalculerPenalitesRetard(amountCents, due, ref2).penaltyCents
  {
    PenaltyNonNegative(DefaultRateHundredths, DefaultIndemnityCents, amountCents, due, ref2);
    if ref1 > due {
      var k := amountCents * DefaultRateHundredths;
      var d1, d2 := WholeDays(due, ref1), WholeDays(due, ref2);
      WholeDaysMonotone(due, ref1, ref2);
      ScaleMonotone(k, d1, d2);
      RoundDivMonotone(k * d1, k * d2, Denominator);
    }
  }

  /** A later instant is at least as many whole days after a given one. */
  lemma WholeDaysMonotone(earlier: int, t1: int, t2: int)
    requires earlier <= t1 <= t2
    ensures WholeDays(earlier, t1) <= WholeDays(earlier, t2)
  {
  }

  lemma ScaleMonotone(k: int, x: int, y: int)
    requires k >= 0 && 0 <= x <= y
    ensures 0 <= k * x <= k * y
  {
    assert k * y == k * x + k * (y - x);
  }

  /** Rounding to the nearest, halves up, preserves order. */
  lemma RoundDivMonotone(a: int, b: int, d: int)
    requires d > 0 && 0 <= a <= b
    ensures RoundDiv(a, d) <= RoundDiv(b, d)
  {
    var ra, rb := RoundDiv(a, d), RoundDiv(b, d);
    MultipleBound(ra - rb, d);
    assert 2 * ra * d - 2 * rb * d == 2 * ((ra - rb) * d);
  }

  /** 1000 EUR paid 73 days late at 10 % a year: 20.00 EUR of penalties and a
      total of 60.00 EUR with the indemnity. */
  lemma ExampleSeventyThreeDays(due: int)
    ensures var r := CalculerPenalitesRetard(100000, due, due + 73 * DaySeconds);
            r.daysLate == 73 && r.penaltyCents == 2000 && r.indemnityCents == 4000 && r.totalCents == 6000
  {
    assert 100000 * DefaultRateHundredths * 73 == 2000 * Denominator;
    RoundDivExact(2000, Denominator);
    assert 100000 * DefaultRateHundredths * 73 + DefaultIndemnityCents * Denominator == 6000 * Denominator;
    RoundDivExact(6000, Denominator);
  }

  /** Later on the due date itself the helper already charges: 0 days late
      and no penalty, but the 40 EUR indemnity, and a total of 40 EUR. */
  lemma DueDateAfterMidnight(amountCents: int, due: int, reference: int)
    requires due < reference < due + DaySeconds
    ensures CalculerPenalitesRetard(amountCents, due, reference)
            == PenaltyRecord(0, DefaultRateHundredths, 0, DefaultIndemnityCents, DefaultIndemnityCents)
  {
    assert WholeDays(due, reference) == 0;
    RoundDivExact(0, Denominator);
    RoundDivExact(DefaultIndemnityCents, Denominator);
  }

  // ---------------------------------------------------------------------------
  // Reminder level
  // ---------------------------------------------------------------------------

  /** delai_relance_1, delai_relance_2 and delai_mise_en_demeure of
      config/entreprise.php. */
  const FirstReminderDays: int := 15
  const SecondReminderDays: int := 30
  const FormalNoticeDays: int := 60

  datatype Urgency = Normal | Low | Medium | High

  /** The array the helper returns: niveau, type, libelle, urgence. */
  datatype ReminderLevel = ReminderLevel(level: nat, kind: string, caption: string, urgency: Urgency)

  /** The four rows of the helper's table, by level. */
  function LevelRow(level: nat): (r: ReminderLevel)
    requires level <= 3
    ensures r.level == level
  {
    if level == 0 then ReminderLevel(0, "aucune", "Pas de relance nécessaire", Normal)
    else if level == 1 then ReminderLevel(1, "rappel_aimable", "Rappel aimable", Low)
    else if level == 2 then ReminderLevel(2, "relance_ferme", "Relance ferme", Medium)
    else ReminderLevel(3, "mise_en_demeure", "Mise en demeure", High)
  }

  /** determiner_niveau_relance with its three thresholds as parameters:
      the first band whose threshold the days have not reached. */
  function ReminderLevelWith(days: int, t1: int, t2: int, t3: int): (r: ReminderLevel)
    ensures r.level <= 3 && r == LevelRow(r.level)
    ensures r.level == 0 <==> days < t1
    ensures r.level == 3 <==> days >= t1 && days >= t2 && days >= t3
  {
    if days < t1 then LevelRow(0)
    else if days < t2 then LevelRow(1)
    else if days < t3 then LevelRow(2)
    else LevelRow(3)
  }

  /** The helper with the shipped thresholds: the level is the number of
      the thresholds 15, 30 and 60 days that the delay has reached. */
  function DeterminerNiveauRelance(days: int): (r: ReminderLevel)
    ensures r.level <= 3 && r == LevelRow(r.level)
    ensures r.level == (if days >= FirstReminderDays then 1 else 0) + (if days >= SecondReminderDays then 1 else 0)
                       + (if days >= FormalNoticeDays then 1 else 0)
  {
    LevelCountsThresholds(days, FirstReminderDays, SecondReminderDays, FormalNoticeDays);
    ReminderLevelWith(days, FirstReminderDays, SecondReminderDays, FormalNoticeDays)
  }

  /** With ascending thresholds the level counts the thresholds reached. */
  lemma LevelCountsThresholds(days: int, t1: int, t2: int, t3: int)
    requires t1 <= t2 <= t3
    ensures ReminderLevelWith(days, t1, t2, t3).level
         == (if days >= t1 then 1 else 0) + (if days >= t2 then 1 else 0) + (if days >= t3 then 1 else 0)
  {
  }

  /** With ascending thresholds the level never goes down as days go up. */
  lemma LevelMonotone(d1: int, d2: int, t1: int, t2: int, t3: int)
    requires t1 <= t2 <= t3 && d1 <= d2
    ensures ReminderLevelWith(d1, t1, t2, t3).level <= ReminderLevelWith(d2, t1, t2, t3).level
  {
    LevelCountsThresholds(d1, t1, t2, t3);
    LevelCountsThresholds(d2, t1, t2, t3);
  }

  /** The shipped thresholds at the band edges. */
  lemma ShippedBands()
    ensures DeterminerNiveauRelance(14).level == 0 && DeterminerNiveauRelance(14).kind == "aucune"
    ensures DeterminerNiveauRelance(15).level == 1 && DeterminerNiveauRelance(15).kind == "rappel_aimable"
    ensures DeterminerNiveauRelance(30).level == 2 && DeterminerNiveauRelance(30).kind == "relance_ferme"
    ensures DeterminerNiveauRelance(60).level == 3 && DeterminerNiveauRelance(60).kind == "mise_en_demeure"
  {
  }
}
