/**
 Which category a URL belongs to: `getCategoryForUrl`, `isUrlCategorized`
 and `saveCategorization` of src/background/categorizationManager.js and
 their legacy twins in src/background/background.js.

 The lookup runs over the four preference dictionaries with a fixed
 precedence: the lower-cased URL in `urls`, the hostname in `exactDomains`,
 the first `subdomains` key (in iteration order) covering the hostname,
 the root domain in `rootDomains`, and `"neutral"` when nothing applies.
 A stored category counts only when it is truthy, i.e. non-empty, except
 for a `subdomains` hit, which needs only the key.
 */
module Resolver {
  import opened Values
  import opened Strings
  import opened OrderedMaps
  import opened Domains
  import opened Preferences

  /** JavaScript truthiness of a category string. */
  predicate Truthy(c: string) { c != "" }

  /** `prefs[map][key]` read as a string, `undefined` read as the falsy `""`. */
  function Lookup(m: OMap<string>, k: string): string {
    GetOr(m, k, "")
  }

  /** Position of the first `subdomains` key covering `h`, in iteration order. */
  function FirstSubdomainMatch(subs: OMap<string>, h: string): (r: Option<nat>)
    ensures r.Some? ==> r.value < |subs| && SubdomainMatches(h, subs[r.value].0)
    ensures r.Some? ==> forall j :: 0 <= j < r.value ==> !SubdomainMatches(h, subs[j].0)
    ensures r.None? <==> forall j :: 0 <= j < |subs| ==> !SubdomainMatches(h, subs[j].0)
  {
    if |subs| == 0 then None
    else if SubdomainMatches(h, subs[0].0) then Some(0)
    else match FirstSubdomainMatch(subs[1..], h)
      case None => None
      case Some(i) => Some(i + 1)
  }

  /** The category for the lower-cased URL `nu` whose hostname is `h`. */
  function Resolve(p: Prefs, nu: string, h: string): string {
    if Truthy(Lookup(p.urls, nu)) then Lookup(p.urls, nu)
    else if Truthy(Lookup(p.exactDomains, h)) then Lookup(p.exactDomains, h)
    else match FirstSubdomainMatch(p.subdomains, h)
      case Some(i) => p.subdomains[i].1
      case None =>
        if Truthy(Lookup(p.rootDomains, RootDomain(h))) then Lookup(p.rootDomains, RootDomain(h))
        else "neutral"
  }

  /** Whether some preference applies to the lower-cased URL `nu` with hostname `h`. */
  predicate Categorized(p: Prefs, nu: string, h: string) {
    Truthy(Lookup(p.urls, nu)) ||
    Truthy(Lookup(p.exactDomains, h)) ||
    FirstSubdomainMatch(p.subdomains, h).Some? ||
    Truthy(Lookup(p.rootDomains, RootDomain(h)))
  }

  /**
   The precedence of the lookup, stated rule by rule: a truthy `urls` entry
   overrides everything, then a truthy `exactDomains` entry, then the
   earliest covering `subdomains` key whatever its value, then a truthy
   `rootDomains` entry, and `"neutral"` otherwise.
   */
  lemma ResolvePrecedence(p: Prefs, nu: string, h: string)
    ensures Truthy(Lookup(p.urls, nu)) ==> Resolve(p, nu, h) == Lookup(p.urls, nu)
    ensures !Truthy(Lookup(p.urls, nu)) && Truthy(Lookup(p.exactDomains, h)) ==>
            Resolve(p, nu, h) == Lookup(p.exactDomains, h)
    ensures forall i :: !Truthy(Lookup(p.urls, nu)) && !Truthy(Lookup(p.exactDomains, h)) &&
                        0 <= i < |p.subdomains| && SubdomainMatches(h, p.subdomains[i].0) &&
                        (forall j :: 0 <= j < i ==> !SubdomainMatches(h, p.subdomains[j].0)) ==>
                        Resolve(p, nu, h) == p.subdomains[i].1
    ensures !Truthy(Lookup(p.urls, nu)) && !Truthy(Lookup(p.exactDomains, h)) &&
            (forall j :: 0 <= j < |p.subdomains| ==> !SubdomainMatches(h, p.subdomains[j].0)) ==>
            Resolve(p, nu, h) == if Truthy(Lookup(p.rootDomains, RootDomain(h))) then Lookup(p.rootDomains, RootDomain(h)) else "neutral"
  {
    var first := FirstSubdomainMatch(p.subdomains, h);
    forall i | !Truthy(Lookup(p.urls, nu)) && !Truthy(Lookup(p.exactDomains, h)) &&
               0 <= i < |p.subdomains| && SubdomainMatches(h, p.subdomains[i].0) &&
               (forall j :: 0 <= j < i ==> !SubdomainMatches(h, p.subdomains[j].0))
      ensures Resolve(p, nu, h) == p.subdomains[i].1
    {
      assert first.Some?;
      assert !(first.value < i);
      assert !(i < first.value);
    }
  }

  /** A URL no preference applies to resolves to `"neutral"`. */
  lemma UncategorizedIsNeutral(p: Prefs, nu: string, h: string)
    ensures !Categorized(p, nu, h) ==> Resolve(p, nu, h) == "neutral"
    ensures Categorized(p, nu, h) && FirstSubdomainMatch(p.subdomains, h).None? ==> Truthy(Resolve(p, nu, h))
  {
  }

  // ---- The modular lookups: parse first ----

  /** `getCategoryForUrl(url)` of the modular version: throws when the lower-cased URL does not parse. */
  function CategoryFor(parse: Parser, p: Prefs, url: string): (r: Result<string>)
    ensures r.Err? <==> parse(Lower(url)).None?
  {
    match HostOf(parse, url)
    case None => Err(InvalidUrl)
    case Some(h) => Ok(Resolve(p, Lower(url), h))
  }

  /** `isUrlCategorized(url)` of the modular version. */
  function IsCategorized(parse: Parser, p: Prefs, url: string): (r: Result<bool>)
    ensures r.Err? <==> parse(Lower(url)).None?
  {
    match HostOf(parse, url)
    case None => Err(InvalidUrl)
    case Some(h) => Ok(Categorized(p, Lower(url), h))
  }

  /** When `isUrlCategorized` says no, `getCategoryForUrl` says `"neutral"`. */
  lemma NotCategorizedMeansNeutral(parse: Parser, p: Prefs, url: string)
    requires IsCategorized(parse, p, url) == Ok(false)
    ensures CategoryFor(parse, p, url) == Ok("neutral")
  {
    UncategorizedIsNeutral(p, Lower(url), HostOf(parse, url).value);
  }

  /** Both lookups see only the lower-cased URL, so URLs differing in case get the same answers. */
  lemma CaseInsensitive(parse: Parser, p: Prefs, u1: string, u2: string)
    requires Lower(u1) == Lower(u2)
    ensures CategoryFor(parse, p, u1) == CategoryFor(parse, p, u2)
    ensures IsCategorized(parse, p, u1) == IsCategorized(parse, p, u2)
    ensures LegacyCategoryFor(parse, p, u1) == LegacyCategoryFor(parse, p, u2)
    ensures LegacyIsCategorized(parse, p, u1) == LegacyIsCategorized(parse, p, u2)
  {
  }

  // ---- The legacy lookups: the `urls` entry before parsing ----

  /** `getCategoryForUrl(url)` of background.js: a truthy `urls` entry answers before `new URL` runs. */
  function LegacyCategoryFor(parse: Parser, p: Prefs, url: string): (r: Result<string>)
    ensures Truthy(Lookup(p.urls, Lower(url))) ==> r == Ok(Lookup(p.urls, Lower(url)))
  {
    var nu := Lower(url);
    if Truthy(Lookup(p.urls, nu)) then Ok(Lookup(p.urls, nu))
    else match HostOf(parse, url)
      case None => Err(InvalidUrl)
      case Some(h) => Ok(Resolve(p, nu, h))
  }

  /** `isUrlCategorized(url)` of background.js. */
  function LegacyIsCategorized(parse: Parser, p: Prefs, url: string): (r: Result<bool>)
    ensures Truthy(Lookup(p.urls, Lower(url))) ==> r == Ok(true)
  {
    var nu := Lower(url);
    if Truthy(Lookup(p.urls, nu)) then Ok(true)
    else match HostOf(parse, url)
      case None => Err(InvalidUrl)
      case Some(h) => Ok(Categorized(p, nu, h))
  }

  /**
   The two versions give the same answers whenever the lower-cased URL
   parses; when it does not, the legacy version still answers from a
   truthy `urls` entry where the modular one throws.
   */
  lemma LegacyAgrees(parse: Parser, p: Prefs, url: string)
    ensures parse(Lower(url)).Some? ==> LegacyCategoryFor(parse, p, url) == CategoryFor(parse, p, url)
    ensures parse(Lower(url)).Some? ==> LegacyIsCategorized(parse, p, url) == IsCategorized(parse, p, url)
    ensures parse(Lower(url)).None? && Truthy(Lookup(p.urls, Lower(url))) ==>
            CategoryFor(parse, p, url).Err? && LegacyCategoryFor(parse, p, url).Ok?
  {
  }

  // ---- Saving a preference ----

  datatype MapName = Urls | ExactDomains | Subdomains | RootDomains

  function MapOf(p: Prefs, name: MapName): OMap<string> {
    match name
    case Urls => p.urls
    case ExactDomains => p.exactDomains
    case Subdomains => p.subdomains
    case RootDomains => p.rootDomains
  }

  /** The dictionary and key a scope writes for the lower-cased URL `nu` with hostname `h`. */
  function Target(scope: string, nu: string, h: string): Option<(MapName, string)> {
    if scope == "url" then Some((Urls, nu))
    else if scope == "exact" then Some((ExactDomains, h))
    else if scope == "subdomains" then Some((Subdomains, h))
    else if scope == "domain" then Some((RootDomains, RootDomain(h)))
    else None
  }

  function WithMap(p: Prefs, name: MapName, m: OMap<string>): Prefs {
    match name
    case Urls => p.(urls := m)
    case ExactDomains => p.(exactDomains := m)
    case Subdomains => p.(subdomains := m)
    case RootDomains => p.(rootDomains := m)
  }

  /**
   `saveCategorization(url, category, scope)` (and the legacy
   `handleSaveCategorization`): parse the lower-cased URL, which throws
   before anything is written, then store the category under the key the
   scope selects. An unknown scope writes nothing.
   */
  function SaveCategorization(parse: Parser, p: Prefs, url: string, category: string, scope: string): (r: Result<Prefs>)
    ensures r.Err? <==> parse(Lower(url)).None?
  {
    match HostOf(parse, url)
    case None => Err(InvalidUrl)
    case Some(h) =>
      match Target(scope, Lower(url), h)
      case None => Ok(p)
      case Some((name, key)) => Ok(WithMap(p, name, Put(MapOf(p, name), key, category)))
  }

  /**
   A save writes exactly one entry: the target key of the target
   dictionary now holds the category, and every other key of every
   dictionary reads as before.
   */
  lemma SaveWritesOneEntry(parse: Parser, p: Prefs, url: string, category: string, scope: string)
    requires SaveCategorization(parse, p, url, category, scope).Ok?
    ensures var q := SaveCategorization(parse, p, url, category, scope).value;
            var t := Target(scope, Lower(url), HostOf(parse, url).value);
            (t.Some? ==> Get(MapOf(q, t.value.0), t.value.1) == Some(category)) &&
            (forall name, k :: t != Some((name, k)) ==> Get(MapOf(q, name), k) == Get(MapOf(p, name), k))
  {
    var q := SaveCategorization(parse, p, url, category, scope).value;
    var t := Target(scope, Lower(url), HostOf(parse, url).value);
    if t.Some? {
      var (n, key) := t.value;
      forall name, k | t != Some((name, k)) ensures Get(MapOf(q, name), k) == Get(MapOf(p, name), k) {
        if name == n {
          assert k != key;
        }
      }
    }
  }

  /**
   Whether the entry `key` of dictionary `name` applies to the lower-cased
   URL `nu` with hostname `h`: a `urls`, `exactDomains` or `rootDomains`
   entry under the URL's own key with a truthy value, or any `subdomains`
   key the hostname matches, whatever its value.
   */
  predicate Applies(p: Prefs, name: MapName, key: string, nu: string, h: string) {
    match name
    case Urls => key == nu && Truthy(Lookup(p.urls, key))
    case ExactDomains => key == h && Truthy(Lookup(p.exactDomains, key))
    case Subdomains => HasKey(p.subdomains, key) && SubdomainMatches(h, key)
    case RootDomains => key == RootDomain(h) && Truthy(Lookup(p.rootDomains, key))
  }

  /** A URL is categorized exactly when some entry applies to it. */
  lemma CategorizedIffApplies(p: Prefs, nu: string, h: string)
    ensures Categorized(p, nu, h) <==> exists name, key :: Applies(p, name, key, nu, h)
  {
    if Categorized(p, nu, h) {
      if Truthy(Lookup(p.urls, nu)) {
        assert Applies(p, Urls, nu, nu, h);
      } else if Truthy(Lookup(p.exactDomains, h)) {
        assert Applies(p, ExactDomains, h, nu, h);
      } else if FirstSubdomainMatch(p.subdomains, h).Some? {
        var i := FirstSubdomainMatch(p.subdomains, h).value;
        assert Applies(p, Subdomains, p.subdomains[i].0, nu, h);
      } else {
        assert Applies(p, RootDomains, RootDomain(h), nu, h);
      }
    }
    if exists name, key :: Applies(p, name, key, nu, h) {
      var name, key :| Applies(p, name, key, nu, h);
      if name == Subdomains {
        var j :| 0 <= j < |p.subdomains| && p.subdomains[j].0 == key;
        assert SubdomainMatches(h, p.subdomains[j].0);
      }
    }
  }

  /**
   After saving a non-empty category under a known scope the URL counts as
   categorized, and under the `url` scope it resolves to that category.
   */
  lemma SaveThenResolve(parse: Parser, p: Prefs, url: string, category: string, scope: string)
    requires SaveCategorization(parse, p, url, category, scope).Ok?
    requires Truthy(category) && scope in ["url", "exact", "subdomains", "domain"]
    ensures var q := SaveCategorization(parse, p, url, category, scope).value;
            IsCategorized(parse, q, url) == Ok(true)
    ensures var q := SaveCategorization(parse, p, url, category, scope).value;
            scope == "url" ==> CategoryFor(parse, q, url) == Ok(category)
  {
    var q := SaveCategorization(parse, p, url, category, scope).value;
    var h := HostOf(parse, url).value;
    var nu := Lower(url);
    var (name, key) := Target(scope, nu, h).value;
    SaveWritesOneEntry(parse, p, url, category, scope);
    assert Get(MapOf(q, name), key) == Some(category);
    match name
    case Urls =>
      assert Lookup(q.urls, nu) == category;
    case ExactDomains =>
      assert Lookup(q.exactDomains, h) == category;
    case Subdomains =>

      var i := Find(q.subdomains, h);
      assert SubdomainMatches(h, q.subdomains[i].0);
    case RootDomains =>
      assert Lookup(q.rootDomains, RootDomain(h)) == category;
  }
}
