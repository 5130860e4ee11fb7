/** Company settings resolution of app/Providers/EntrepriseServiceProvider.php:
    the defaults/database merge of loadEntrepriseSettings, the required-field
    scan of getMissingRequiredFields, the completion statistics of
    getConfigurationStats and the formatTelephone collection macro. The
    defaults (config('entreprise.defaut'), which reads the environment) and
    the outcome of reading the entreprise_settings table are inputs. */
module Settings {
  import opened Common
  import Formatting

  /** A settings value as PHP holds it. Decimal columns are kept as whole
      numbers of their smallest unit. */
  datatype Value = Null | Str(s: string) | Num(n: int) | Flag(b: bool)

  type Config = map<string, Value>

  /** The values the merge filter drops: null and the empty string. */
  predicate Blank(v: Value) {
    v == Null || v == Str("")
  }

  /** PHP's empty() on a value: null, "", "0", 0 and false. */
  predicate Empty(v: Value) {
    v == Null || v == Str("") || v == Str("0") || v == Num(0) || v == Flag(false)
  }

  /** empty($settings[$key]), which is also true for an absent key. */
  predicate EmptyAt(settings: Config, key: string) {
    key !in settings || Empty(settings[key])
  }

  // ---------------------------------------------------------------------------
  // loadEntrepriseSettings
  // ---------------------------------------------------------------------------

  /** What reading the table gives: no table, no row, an exception, or the
      first row with the computed entries. */
  datatype Read =
    | NoTable
    | NoRow
    | Failed
    | Row(columns: Config, configured: bool, logoUrl: Value, logoPath: Value)

  /** $settings->toArray() with 'configured', 'logo_url' and 'logo_path'
      added. */
  function DatabaseSettings(columns: Config, configured: bool, logoUrl: Value, logoPath: Value): (r: Config)
    ensures r.Keys == columns.Keys + {"configured", "logo_url", "logo_path"}
    ensures r["configured"] == Flag(configured) && r["logo_url"] == logoUrl && r["logo_path"] == logoPath
    ensures forall k :: k in columns && k !in {"configured", "logo_url", "logo_path"} ==> r[k] == columns[k]
  {
    columns["configured" := Flag(configured)]["logo_url" := logoUrl]["logo_path" := logoPath]
  }

  /** array_filter with the "neither null nor ''" callback. */
  function Filled(db: Config): (r: Config)
    ensures forall k :: k in r <==> k in db && !Blank(db[k])
    ensures forall k :: k in r ==> r[k] == db[k]
  {
    map k | k in db && !Blank(db[k]) :: db[k]
  }

  /** loadEntrepriseSettings: the defaults, overridden by every database value
      that is neither null nor '' (array_merge keeps the later value). */
  function LoadSettings(defaults: Config, read: Read): (r: Config)
    ensures !read.Row? ==> r == defaults
    ensures read.Row? ==>
              var db := DatabaseSettings(read.columns, read.configured, read.logoUrl, read.logoPath);
              && (forall k :: k in r <==> k in defaults || (k in db && !Blank(db[k])))
              && (forall k :: k in r ==> r[k] == if k in db && !Blank(db[k]) then db[k] else defaults[k])
  {
    match read
    case Row(columns, configured, logoUrl, logoPath) =>
      defaults + Filled(DatabaseSettings(columns, configured, logoUrl, logoPath))
    case _ => defaults
  }

  /** Every default key survives the merge, and a key keeps its default value
      exactly when the database does not fill it. */
  lemma {:induction false} DefaultsSurvive(defaults: Config, read: Read, k: string)
    requires k in defaults
    ensures k in LoadSettings(defaults, read)
    ensures read.Row? && k !in read.columns && k !in {"configured", "logo_url", "logo_path"} ==>
              LoadSettings(defaults, read)[k] == defaults[k]
    ensures read.Row? && k in read.columns && Blank(read.columns[k]) && k !in {"configured", "logo_url", "logo_path"} ==>
              LoadSettings(defaults, read)[k] == defaults[k]
  {
    var r := LoadSettings(defaults, read);
    if read.Row? {
      var db := DatabaseSettings(read.columns, read.configured, read.logoUrl, read.logoPath);
      assert k in r;
      if k !in {"configured", "logo_url", "logo_path"} {
        assert k in db <==> k in read.columns;
      }
    }
  }

  /** The computed 'configured' flag is never filtered out, so the merged
      settings always carry it after a successful read. */
  lemma ConfiguredAlwaysMerged(defaults: Config, columns: Config, configured: bool, logoUrl: Value, logoPath: Value)
    ensures LoadSettings(defaults, Row(columns, configured, logoUrl, logoPath))["configured"] == Flag(configured)
  {
    var db := DatabaseSettings(columns, configured, logoUrl, logoPath);
    assert !Blank(db["configured"]);
  }

  // ---------------------------------------------------------------------------
  // Required fields
  // ---------------------------------------------------------------------------

  const Required: seq<string> := ["nom", "adresse", "telephone", "email", "siret"]

  /** The fields of fields that are empty in settings, in the order of
      fields. */
  function Missing(settings: Config, fields: seq<string>): (r: seq<string>)
    ensures |r| <= |fields|
  {
    if fields == [] then []
    else
      var f := fields[|fields| - 1];
      Missing(settings, fields[..|fields| - 1]) + (if EmptyAt(settings, f) then [f] else [])
  }

  /** The number of fields of fields that are filled in settings. */
  function Completed(settings: Config, fields: seq<string>): (r: nat)
    ensures r <= |fields|
  {
    if fields == [] then 0
    else
      Completed(settings, fields[..|fields| - 1]) + (if EmptyAt(settings, fields[|fields| - 1]) then 0 else 1)
  }

  /** xs can be obtained from ys by deleting elements: the last element of
      ys is either dropped or matched by the last element of xs. */
  predicate IsSubsequence(xs: seq<string>, ys: seq<string>)
    decreases |ys|
  {
    if ys == [] then xs == []
    else
      || IsSubsequence(xs, ys[..|ys| - 1])
      || (xs != [] && xs[|xs| - 1] == ys[|ys| - 1] && IsSubsequence(xs[..|xs| - 1], ys[..|ys| - 1]))
  }

  /** A field is reported missing exactly when it is required and empty. */
  lemma {:induction false} MissingMembers(settings: Config, fields: seq<string>)
    ensures forall f :: f in Missing(settings, fields) <==> f in fields && EmptyAt(settings, f)
  {
    if fields != [] {
      var init := fields[..|fields| - 1];
      MissingMembers(settings, init);
      assert fields == init + [fields[|fields| - 1]];
    }
  }

  /** The missing fields come in the order of the required list. */
  lemma {:induction false} MissingInOrder(settings: Config, fields: seq<string>)
    ensures IsSubsequence(Missing(settings, fields), fields)
  {
    if fields != [] {
      var init := fields[..|fields| - 1];
      var f := fields[|fields| - 1];
      MissingInOrder(settings, init);
      var m := Missing(settings, init);
      if EmptyAt(settings, f) {
        assert (m + [f])[..|m + [f]| - 1] == m;
      } else {
        assert Missing(settings, fields) == m;
      }
    }
  }

  /** Each required field is either completed or missing. */
  lemma {:induction false} CompletedPlusMissing(settings: Config, fields: seq<string>)
    ensures Completed(settings, fields) + |Missing(settings, fields)| == |fields|
  {
    if fields != [] {
      CompletedPlusMissing(settings, fields[..|fields| - 1]);
    }
  }

  /** getMissingRequiredFields. */
  method GetMissingRequiredFields(settings: Config) returns (missing: seq<string>)
    ensures missing == Missing(settings, Required)
    ensures forall f :: f in missing <==> f in Required && EmptyAt(settings, f)
    ensures IsSubsequence(missing, Required)
  {
    missing := [];
    for i := 0 to |Required|
      invariant missing == Missing(settings, Required[..i])
    {
      assert Required[..i + 1][..i] == Required[..i];
      if EmptyAt(settings, Required[i]) {
        missing := missing + [Required[i]];
      }
    }
    assert Required[..|Required|] == Required;
    MissingMembers(settings, Required);
    MissingInOrder(settings, Required);
  }

  // ---------------------------------------------------------------------------
  // getConfigurationStats
  // ---------------------------------------------------------------------------

  datatype Stats = Stats(
    completedFields: nat,
    totalFields: nat,
    percentage: int,
    isConfigured: bool,
    missingFields: seq<string>,
    hasLogo: bool,
    cacheEnabled: bool)

  /** The answer when reading the settings throws. */
  const FallbackStats: Stats := Stats(0, 5, 0, false, Required, false, false)

  /** getConfigurationStats; settings is None when app('entreprise.settings')
      throws, and cacheEnabled is config('entreprise.cache.enabled'). */
  method GetConfigurationStats(settings: Option<Config>, cacheEnabled: bool) returns (stats: Stats)
    ensures settings.None? ==> stats == FallbackStats
    ensures settings.Some? ==>
              && stats.completedFields == Completed(settings.value, Required)
              && stats.missingFields == Missing(settings.value, Required)
              && stats.hasLogo == !EmptyAt(settings.value, "logo")
              && stats.cacheEnabled == cacheEnabled
    ensures stats.totalFields == 5
    ensures stats.completedFields + |stats.missingFields| == stats.totalFields
    ensures stats.percentage == 20 * stats.completedFields
    ensures stats.isConfigured <==> stats.missingFields == []
  {
    if settings.None? {
      return FallbackStats;
    }
    var s := settings.value;
    var completed := 0;
    for i := 0 to |Required|
      invariant completed == Completed(s, Required[..i])
    {
      assert Required[..i + 1][..i] == Required[..i];
      if !EmptyAt(s, Required[i]) {
        completed := completed + 1;
      }
    }
    assert Required[..|Required|] == Required;
    var total := |Required|;
    var pourcentage := if total > 0 then RoundDiv(completed * 100, total) else 0;
    assert completed * 100 == (20 * completed) * 5;
    RoundDivExact(20 * completed, 5);
    var missing := GetMissingRequiredFields(s);
    CompletedPlusMissing(s, Required);
    stats := Stats(completed, total, pourcentage, pourcentage >= 100, missing, !EmptyAt(s, "logo"), cacheEnabled);
  }

  // ---------------------------------------------------------------------------
  // formatTelephone macro
  // ---------------------------------------------------------------------------

  /** The formatTelephone collection macro: the argument, or the collection's
      first element when it is null, formatted by the same ten-digit rule as
      the format_telephone helper. On an empty collection with no argument
      the number stays null: no digits are kept, the length test fails and
      the null is returned. */
  function FormatTelephoneMacro(telephone: Option<string>, first: Option<string>): (r: Option<string>)
    ensures r.None? <==> telephone.None? && first.None?
    ensures telephone.Some? ==> r == Some(Formatting.FormatTelephone(telephone.value))
    ensures telephone.None? && first.Some? ==> r == Some(Formatting.FormatTelephone(first.value))
  {
    var t := if telephone.Some? then telephone else first;
    match t
    case None => None
    case Some(s) =>
      var numero := Formatting.KeepDigits(s);
      if |numero| == 10 then
        Some(numero[0..2] + " " + numero[2..4] + " " + numero[4..6] + " " + numero[6..8] + " " + numero[8..10])
      else Some(s)
  }
}
