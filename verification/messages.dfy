/**
 The `saveCategorization` message the content script sends when the user
 picks a category for a page (`handleMessage` in
 src/background/timeTracker.js, the `onMessage` listener in
 src/background/background.js): save the preference, then reallocate the
 page's uncategorized time. A throw while saving ends the handler, so the
 reallocation does not run.
 */
module Messages {
  import opened Values
  import opened Strings
  import opened OrderedMaps
  import opened Domains
  import opened Preferences
  import opened Resolver
  import opened Ledgers
  import opened Reallocation
  import opened Tracker

  /** The preferences and the in-memory ledger after the message. */
  function HandleSaveMessage(v: Version, parse: Parser, p: Prefs, l: Ledger, url: string, category: string, scope: string): (r: (Prefs, Ledger))
    ensures parse(Lower(url)).None? ==> r == (p, l)
    ensures parse(Lower(url)).Some? ==> r.0 == SaveCategorization(parse, p, url, category, scope).value
    ensures v == Modular ==> r.1 == l
  {
    match SaveCategorization(parse, p, url, category, scope)
    case Err(_) => (p, l)
    case Ok(q) =>
      var outcome := if v == Legacy then Reallocate(parse, l, url, category, scope) else ModularReallocate(parse, l, url, category, scope);
      (q, outcome.ledger)
  }

  /**
   In the legacy build a save message files every matching uncategorized
   leaf under the chosen category, the page is categorized from then on,
   and the ledger's total is unchanged.
   */
  lemma LegacySaveMovesTime(parse: Parser, p: Prefs, l: Ledger, url: string, category: string, scope: string, d: string, x: string)
    requires WellFormed(l) && Truthy(category) && category != Uncategorized
    requires parse(Lower(url)).Some?
    requires Reallocate(parse, l, url, category, scope).completed
    requires Leaf(l, d, Uncategorized, x).Some?
    requires SiteMatches(parse, scope, Lower(url), HostOf(parse, url).value, x)
    ensures var (q, l') := HandleSaveMessage(Legacy, parse, p, l, url, category, scope);
            && Leaf(l', d, Uncategorized, x) == None
            && Leaf(l', d, category, x).GetOr(0) == Leaf(l, d, category, x).GetOr(0) + Leaf(l, d, Uncategorized, x).value
            && IsCategorized(parse, q, x) == Ok(true)
            && Total(l') == Total(l)
  {
    LeafGetOr(l, d, Uncategorized, x);
    ReallocateLeaves(parse, l, url, category, scope, d, category, x);
    MatchedSiteIsCategorized(parse, p, url, category, scope, x);
    ReallocateTotal(parse, l, url, category, scope);
  }

  /**
   In the modular build the same message categorizes the page for the
   future but leaves its past time under `uncategorized`.
   */
  lemma ModularSaveKeepsTime(parse: Parser, p: Prefs, l: Ledger, url: string, category: string, scope: string, x: string)
    requires parse(Lower(url)).Some? && Truthy(category)
    requires SiteMatches(parse, scope, Lower(url), HostOf(parse, url).value, x)
    ensures var (q, l') := HandleSaveMessage(Modular, parse, p, l, url, category, scope);
            && l' == l
            && IsCategorized(parse, q, x) == Ok(true)
  {
    MatchedSiteIsCategorized(parse, p, url, category, scope, x);
  }
}
