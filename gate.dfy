/** The configuration gate of app/Http/Middleware/CheckEntrepriseConfiguration.php:
    an admin's page request is redirected to the company settings page while
    the company is not configured, except on excluded routes. Route-name
    patterns follow Laravel's routeIs: '*' stands for any run of characters
    and the whole name must match. */
module Gate {
  import opened Common
  import Policy

  // ---------------------------------------------------------------------------
  // Route-name patterns
  // ---------------------------------------------------------------------------

  /** Whether name matches pattern, '*' matching any (possibly empty) run of
      characters. */
  predicate Matches(pattern: string, name: string)
    decreases |pattern| + |name|
  {
    if pattern == [] then name == []
    else if pattern[0] == '*' then Matches(pattern[1..], name) || (name != [] && Matches(pattern, name[1..]))
    else name != [] && name[0] == pattern[0] && Matches(pattern[1..], name[1..])
  }

  /** A pattern without '*' matches only itself. */
  lemma {:induction false} LiteralMatches(pattern: string, name: string)
    requires '*' !in pattern
    ensures Matches(pattern, name) <==> name == pattern
    decreases |pattern|
  {
    if pattern != [] && name != [] {
      assert '*' !in pattern[1..];
      LiteralMatches(pattern[1..], name[1..]);
      if name == pattern {
        assert name[1..] == pattern[1..];
      }
      if name[0] == pattern[0] && name[1..] == pattern[1..] {
        assert name == [name[0]] + name[1..];
        assert pattern == [pattern[0]] + pattern[1..];
      }
    }
  }

  /** A lone '*' matches every name. */
  lemma {:induction false} StarMatchesAll(name: string)
    ensures Matches("*", name)
    decreases |name|
  {
    if name != [] {
      StarMatchesAll(name[1..]);
    } else {
      assert "*"[1..] == [];
    }
  }

  /** A literal prefix followed by '*' matches exactly the names that start
      with that prefix. */
  lemma {:induction false} PrefixStarMatches(prefix: string, name: string)
    requires '*' !in prefix
    ensures Matches(prefix + "*", name) <==> prefix <= name
    decreases |prefix|
  {
    var p := prefix + "*";
    if prefix == [] {
      assert p == "*";
      StarMatchesAll(name);
    } else {
      assert p[0] == prefix[0] && p[1..] == prefix[1..] + "*";
      assert '*' !in prefix[1..];
      if name != [] {
        PrefixStarMatches(prefix[1..], name[1..]);
        if prefix <= name {
          assert prefix[1..] <= name[1..];
        }
        if name[0] == prefix[0] && prefix[1..] <= name[1..] {
          assert prefix == [prefix[0]] + prefix[1..];
          assert name == [name[0]] + name[1..];
        }
      }
    }
  }

  /** $excludedRoutes. */
  const ExcludedRoutes: seq<string> :=
    ["admin.entreprise.*", "logout", "login", "register", "password.*", "verification.*"]

  /** The page the gate redirects to. */
  const SettingsRoute: string := "admin.entreprise.settings"

  /** The foreach over the patterns: true as soon as one matches; a request
      without a route name matches none. */
  predicate Excluded(patterns: seq<string>, routeName: Option<string>) {
    routeName.Some? && exists p :: p in patterns && Matches(p, routeName.value)
  }

  /** Every admin.entreprise.* page is excluded, the settings page among
      them, so the redirect never sends the admin back to the gate. */
  lemma EntreprisePagesExcluded(name: string)
    requires "admin.entreprise." <= name
    ensures Excluded(ExcludedRoutes, Some(name))
  {
    assert "admin.entreprise.*" == "admin.entreprise." + "*";
    PrefixStarMatches("admin.entreprise.", name);
    assert Matches(ExcludedRoutes[0], name);
  }

  lemma SettingsRouteExcluded()
    ensures Excluded(ExcludedRoutes, Some(SettingsRoute))
  {
    EntreprisePagesExcluded(SettingsRoute);
  }

  /** 'login' excludes the login page only: a name that merely starts with
      it, such as "login.other", is not excluded by that pattern. */
  lemma LoginIsExact(name: string)
    ensures Matches("login", name) <==> name == "login"
  {
    LiteralMatches("login", name);
  }

  // ---------------------------------------------------------------------------
  // handle
  // ---------------------------------------------------------------------------

  /** What handle reads from the request. */
  datatype Request = Request(ajax: bool, expectsJson: bool, user: Option<Policy.User>, routeName: Option<string>)

  /** EntrepriseSettings::isConfigured, which may throw. */
  datatype ConfigCheck = Answer(configured: bool) | Throws

  /** isEntrepriseConfigured: an exception counts as configured. */
  predicate IsEntrepriseConfigured(check: ConfigCheck) {
    match check
    case Answer(configured) => configured
    case Throws => true
  }

  const SettingsWarning: string :=
    "Veuillez configurer les paramètres de votre entreprise avant de continuer. "
    + "Ces informations sont nécessaires pour générer les devis et factures."

  datatype Decision = Pass | Redirect(route: string, warning: string)

  /** handle. */
  function Handle(req: Request, check: ConfigCheck): (d: Decision)
    ensures d.Redirect? <==>
              && !(req.ajax || req.expectsJson)
              && req.user.Some? && Policy.IsAdmin(req.user.value)
              && !Excluded(ExcludedRoutes, req.routeName)
              && !IsEntrepriseConfigured(check)
    ensures d.Redirect? ==> d == Redirect(SettingsRoute, SettingsWarning)
    ensures req.ajax || req.expectsJson ==> d == Pass
    ensures req.user.None? || !Policy.IsAdmin(req.user.value) ==> d == Pass
    ensures check == Throws ==> d == Pass
  {
    if req.ajax || req.expectsJson then Pass
    else if req.user.None? || !Policy.IsAdmin(req.user.value) then Pass
    else if Excluded(ExcludedRoutes, req.routeName) then Pass
    else if !IsEntrepriseConfigured(check) then Redirect(SettingsRoute, SettingsWarning)
    else Pass
  }

  /** Following the redirect reaches a page the gate lets through. */
  lemma RedirectTargetPasses(req: Request, check: ConfigCheck)
    requires Handle(req, check).Redirect?
    ensures Handle(req.(routeName := Some(Handle(req, check).route)), check) == Pass
  {
    SettingsRouteExcluded();
  }
}
