/**
 * The navigation guard of src/router/index.ts (`router.beforeEach`): before
 * every navigation it either lets it through, possibly selecting the theme
 * named in the URL, or sends the user to the Entry page, where a theme is
 * chosen and its password checked.
 *
 * Whether a theme is verified (isThemeVerifiedSync, which looks at locally
 * stored tokens) is given as the set of verified theme ids; the theme store is
 * reduced to its current theme id.
 */
module Router {
  import opened Wrappers

  const EntryName: string := "Entry"
  const EntryPath: string := "/entry"

  /** The parts of the target route the guard looks at. */
  datatype Target = Target(name: Option<string>, path: string, fullPath: string, themeIdParam: Option<string>)

  /** The query of a redirect to Entry. */
  datatype Query = Query(redirect: Option<string>, themeId: Option<string>)

  /** What the guard passes to `next`: nothing, or a route name with a query. */
  datatype Verdict = Proceed | Redirect(routeName: string, query: Query)

  /** The verdict, with the store's current theme id after the guard ran. */
  datatype Outcome = Outcome(verdict: Verdict, currentThemeId: Option<string>)

  /** The route a redirect to `{ name: 'Entry', query }` arrives at; the guard ignores the query. */
  function EntryTarget(): Target {
    Target(Some(EntryName), EntryPath, EntryPath, None)
  }

  /** The guard's decision for a navigation to `to`, given the verified themes and the current theme. */
  function Decide(to: Target, verified: set<string>, current: Option<string>): Outcome {
    if to.name == Some(EntryName) then Outcome(Proceed, current)
    else if to.path == "/home" || to.name == Some("Home") then Outcome(Redirect(EntryName, Query(None, None)), current)
    else if Truthy(to.themeIdParam) then
      if to.themeIdParam.value !in verified
      then Outcome(Redirect(EntryName, Query(Some(to.fullPath), to.themeIdParam)), current)
      else Outcome(Proceed, to.themeIdParam)
    else if Truthy(current) then
      if current.value !in verified then Outcome(Redirect(EntryName, Query(None, current)), current)
      else Outcome(Proceed, current)
    else Outcome(Redirect(EntryName, Query(None, None)), current)
  }

  /** The part of the theme store the guard reads and writes. */
  class ThemeStore {
    var currentThemeId: Option<string>

    constructor (current: Option<string>)
      ensures currentThemeId == current
    {
      currentThemeId := current;
    }

    method SelectTheme(id: string)
      modifies this
      ensures currentThemeId == Some(id)
    {
      currentThemeId := Some(id);
    }
  }

  /** router.beforeEach: each branch calls `next` once, returned here as the verdict. */
  method BeforeEach(store: ThemeStore, to: Target, verified: set<string>) returns (verdict: Verdict)
    modifies store
    ensures Outcome(verdict, store.currentThemeId) == Decide(to, verified, old(store.currentThemeId))
  {
    if to.name == Some(EntryName) {
      return Proceed;
    }
    if to.path == "/home" || to.name == Some("Home") {
      return Redirect(EntryName, Query(None, None));
    }
    var themeIdFromUrl := to.themeIdParam;
    if Truthy(themeIdFromUrl) {
      if themeIdFromUrl.value !in verified {
        return Redirect(EntryName, Query(Some(to.fullPath), themeIdFromUrl));
      }
      store.SelectTheme(themeIdFromUrl.value);
      return Proceed;
    }
    if Truthy(store.currentThemeId) {
      if store.currentThemeId.value !in verified {
        return Redirect(EntryName, Query(None, store.currentThemeId));
      }
      return Proceed;
    }
    verdict := Redirect(EntryName, Query(None, None));
  }

  // ---------------------------------------------------------------------------
  // The branches

  /** The Entry page is always reachable and nothing changes. */
  lemma EntryAdmitted(to: Target, verified: set<string>, current: Option<string>)
    requires to.name == Some(EntryName)
    ensures Decide(to, verified, current) == Outcome(Proceed, current)
  {
  }

  /** The old /home routes always go to Entry with an empty query, verified or not. */
  lemma LegacyHomeRedirected(to: Target, verified: set<string>, current: Option<string>)
    requires to.name != Some(EntryName)
    requires to.path == "/home" || to.name == Some("Home")
    ensures Decide(to, verified, current) == Outcome(Redirect(EntryName, Query(None, None)), current)
  {
  }

  /**
   * A theme in the URL: if it is not verified, go to Entry carrying the path
   * to come back to and the theme id, leaving the store alone; if it is,
   * select it and proceed.
   */
  lemma UrlTheme(to: Target, verified: set<string>, current: Option<string>)
    requires to.name != Some(EntryName) && to.path != "/home" && to.name != Some("Home")
    requires Truthy(to.themeIdParam)
    ensures to.themeIdParam.value !in verified ==>
              Decide(to, verified, current)
              == Outcome(Redirect(EntryName, Query(Some(to.fullPath), Some(to.themeIdParam.value))), current)
    ensures to.themeIdParam.value in verified ==>
              Decide(to, verified, current) == Outcome(Proceed, Some(to.themeIdParam.value))
  {
  }

  /**
   * No theme in the URL: an unverified current theme goes to Entry with only
   * its id (no path to come back to); a verified one proceeds; without a
   * current theme, go to Entry. The store never changes.
   */
  lemma StoredTheme(to: Target, verified: set<string>, current: Option<string>)
    requires to.name != Some(EntryName) && to.path != "/home" && to.name != Some("Home")
    requires !Truthy(to.themeIdParam)
    ensures Truthy(current) && current.value !in verified ==>
              Decide(to, verified, current) == Outcome(Redirect(EntryName, Query(None, current)), current)
    ensures Truthy(current) && current.value in verified ==>
              Decide(to, verified, current) == Outcome(Proceed, current)
    ensures !Truthy(current) ==>
              Decide(to, verified, current) == Outcome(Redirect(EntryName, Query(None, None)), current)
  {
  }

  // ---------------------------------------------------------------------------
  // What the guard guarantees

  /**
   * Every redirect goes to Entry and leaves the store alone, and the guard
   * admits Entry, so a redirected navigation completes after one extra hop.
   */
  lemma RedirectsSettle(to: Target, verified: set<string>, current: Option<string>)
    ensures Decide(to, verified, current).verdict.Redirect? ==>
              && Decide(to, verified, current).verdict.routeName == EntryName
              && Decide(to, verified, current).currentThemeId == current
              && Decide(EntryTarget(), verified, current) == Outcome(Proceed, current)
  {
  }

  /**
   * Any page other than Entry is reached only with a verified theme selected,
   * and the store only ever switches to the verified theme named in the URL.
   */
  lemma ProceedNeedsVerifiedTheme(to: Target, verified: set<string>, current: Option<string>)
    ensures var out := Decide(to, verified, current);
            out.verdict == Proceed && to.name != Some(EntryName) ==>
              Truthy(out.currentThemeId) && out.currentThemeId.value in verified
    ensures var out := Decide(to, verified, current);
            out.currentThemeId != current ==>
              out.currentThemeId == to.themeIdParam && Truthy(to.themeIdParam) && to.themeIdParam.value in verified
  {
  }
}
