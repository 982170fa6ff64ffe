/**
 The preferences page (src/logs/preferences.js): it lists the keys of the
 four stored dictionaries with a checkbox each and deletes the checked
 entries on confirmation.
 */
module PreferencesPage {
  import opened Values
  import opened Strings
  import opened OrderedMaps
  import opened Domains
  import opened Preferences
  import opened Resolver

  /** `data.categoryPreferences || { urls: {}, exactDomains: {}, subdomains: {}, rootDomains: {} }`. */
  function PageLoad(stored: Option<StoredPrefs>): (r: StoredPrefs)
    ensures stored.Some? ==> r == stored.value
    ensures stored.None? ==> forall name :: StoredMap(r, name) == Some([])
  {
    match stored
    case None => StoredPrefs(Some([]), Some([]), Some([]), Some([]))
    case Some(s) => s
  }

  /** `categoryPreferences[name]`, `None` when the stored object lacks it. */
  function StoredMap(s: StoredPrefs, name: MapName): Option<OMap<string>> {
    match name
    case Urls => s.urls
    case ExactDomains => s.exactDomains
    case Subdomains => s.subdomains
    case RootDomains => s.rootDomains
  }

  function WithStoredMap(s: StoredPrefs, name: MapName, m: OMap<string>): (r: StoredPrefs)
    ensures StoredMap(r, name) == Some(m)
    ensures forall n :: n != name ==> StoredMap(r, n) == StoredMap(s, n)
  {
    match name
    case Urls => s.(urls := Some(m))
    case ExactDomains => s.(exactDomains := Some(m))
    case Subdomains => s.(subdomains := Some(m))
    case RootDomains => s.(rootDomains := Some(m))
  }

  /** A missing stored dictionary reads as empty once filled in. */
  lemma FillMap(s: StoredPrefs, name: MapName)
    ensures MapOf(Fill(s), name) == StoredMap(s, name).GetOr([])
  {
  }

  /** Whether the page deletes `key` from `name` when that checkbox is checked. */
  predicate Deletable(s: StoredPrefs, name: MapName, key: string) {
    StoredMap(s, name).Some? && Truthy(Lookup(StoredMap(s, name).value, key))
  }

  /**
   One checked box: the entry is deleted only when its dictionary exists
   and its value is truthy; otherwise nothing changes.
   */
  function DeleteOne(s: StoredPrefs, name: MapName, key: string): (r: StoredPrefs)
    ensures forall n :: StoredMap(r, n).Some? <==> StoredMap(s, n).Some?
    ensures !Deletable(s, name, key) ==> r == s
    ensures Deletable(s, name, key) ==> !HasKey(StoredMap(r, name).value, key)
  {
    if Deletable(s, name, key) then
      var m := StoredMap(s, name).value;
      GetRemove(m, key, key);
      WithStoredMap(s, name, Remove(m, key))
    else s
  }

  /** Every other entry of every dictionary reads as before a single deletion. */
  lemma DeleteOneGet(s: StoredPrefs, name: MapName, key: string, n: MapName, k: string)
    requires StoredMap(s, n).Some?
    ensures Get(StoredMap(DeleteOne(s, name, key), n).value, k) ==
            if (n, k) == (name, key) && Deletable(s, name, key) then None else Get(StoredMap(s, n).value, k)
  {
    if Deletable(s, name, key) && n == name {
      GetRemove(StoredMap(s, name).value, key, k);
    }
  }

  /** The checked boxes, in page order, each applied to the result of the ones before. */
  function DeleteAll(s: StoredPrefs, sel: seq<(MapName, string)>): (r: StoredPrefs)
    ensures forall n :: StoredMap(r, n).Some? <==> StoredMap(s, n).Some?
    decreases |sel|
  {
    if |sel| == 0 then s else DeleteAll(DeleteOne(s, sel[0].0, sel[0].1), sel[1..])
  }

  /** Whether `(name, key)` is among the checked boxes. */
  predicate Selected(sel: seq<(MapName, string)>, name: MapName, key: string) {
    exists i :: 0 <= i < |sel| && sel[i] == (name, key)
  }

  /**
   After the deletions an entry is gone exactly when it was checked and
   deletable in the stored object; every other entry keeps its value.
   */
  lemma {:induction false} DeleteAllGet(s: StoredPrefs, sel: seq<(MapName, string)>, n: MapName, k: string)
    requires StoredMap(s, n).Some?
    ensures Get(StoredMap(DeleteAll(s, sel), n).value, k) ==
            if Selected(sel, n, k) && Deletable(s, n, k) then None else Get(StoredMap(s, n).value, k)
    decreases |sel|
  {
    if |sel| > 0 {
      var s1 := DeleteOne(s, sel[0].0, sel[0].1);
      DeleteOneGet(s, sel[0].0, sel[0].1, n, k);
      DeleteAllGet(s1, sel[1..], n, k);
      var tail := sel[1..];
      if sel[0] == (n, k) {
        assert Selected(sel, n, k);
        if Deletable(s, n, k) {
          assert !Deletable(s1, n, k);
          if Selected(tail, n, k) {
            assert Get(StoredMap(DeleteAll(s1, tail), n).value, k) == None;
          }
        } else {
          assert s1 == s;
        }
      } else {
        assert Selected(sel, n, k) <==> Selected(tail, n, k) by {
          if Selected(sel, n, k) {
            var i :| 0 <= i < |sel| && sel[i] == (n, k);
            assert tail[i - 1] == (n, k);
          }
          if Selected(tail, n, k) {
            var i :| 0 <= i < |tail| && tail[i] == (n, k);
            assert sel[i + 1] == (n, k);
          }
        }
        assert Deletable(s1, n, k) <==> Deletable(s, n, k);
      }
    }
  }

  /**
   The delete button: nothing is written when no box is checked or the
   user does not confirm; otherwise the stored object (or the four empty
   dictionaries) minus the deletable checked entries. `None` means storage
   is not written.
   */
  function DeleteSelectedPreferences(stored: Option<StoredPrefs>, sel: seq<(MapName, string)>, confirmed: bool): (r: Option<StoredPrefs>)
    ensures r.Some? <==> |sel| > 0 && confirmed
    ensures r.Some? ==> forall n :: StoredMap(r.value, n).Some? <==> StoredMap(PageLoad(stored), n).Some?
  {
    if |sel| == 0 || !confirmed then None
    else Some(DeleteAll(PageLoad(stored), sel))
  }

  /**
   Deleting preferences never categorizes a URL that was not categorized
   before: every entry of the result was already in the stored object.
   */
  lemma DeleteNeverCategorizes(s: StoredPrefs, sel: seq<(MapName, string)>, nu: string, h: string)
    requires !Categorized(Fill(s), nu, h)
    ensures !Categorized(Fill(DeleteAll(s, sel)), nu, h)
  {
    var s' := DeleteAll(s, sel);
    CategorizedIffApplies(Fill(s), nu, h);
    CategorizedIffApplies(Fill(s'), nu, h);
    forall name, key | Applies(Fill(s'), name, key, nu, h) ensures Applies(Fill(s), name, key, nu, h) {
      AppliesBefore(s, sel, name, key, nu, h);
    }
  }

  /**
   Checking every entry that applies to a URL, when each has a truthy
   value, makes the URL uncategorized again, so the content script
   prompts for it on the next visit.
   */
  lemma DeleteApplyingUncategorizes(s: StoredPrefs, sel: seq<(MapName, string)>, nu: string, h: string)
    requires forall name, key :: Applies(Fill(s), name, key, nu, h) ==> Selected(sel, name, key) && Deletable(s, name, key)
    ensures !Categorized(Fill(DeleteAll(s, sel)), nu, h)
  {
    var s' := DeleteAll(s, sel);
    CategorizedIffApplies(Fill(s'), nu, h);
    forall name, key | Applies(Fill(s'), name, key, nu, h) ensures false {
      AppliesBefore(s, sel, name, key, nu, h);
    }
  }

  /** An entry that applies after the deletions applied before them and was not deleted. */
  lemma AppliesBefore(s: StoredPrefs, sel: seq<(MapName, string)>, name: MapName, key: string, nu: string, h: string)
    requires Applies(Fill(DeleteAll(s, sel)), name, key, nu, h)
    ensures Applies(Fill(s), name, key, nu, h)
    ensures !(Selected(sel, name, key) && Deletable(s, name, key))
  {
    var s' := DeleteAll(s, sel);
    FillMap(s', name);
    FillMap(s, name);
    assert HasKey(MapOf(Fill(s'), name), key);
    assert StoredMap(s, name).Some?;
    DeleteAllGet(s, sel, name, key);
  }

  /**
   A `subdomains` entry whose value is the empty string still covers its
   hostnames but can never be deleted from this page.
   */
  lemma EmptySubdomainEntryStays(s: StoredPrefs, sel: seq<(MapName, string)>, key: string, h: string, nu: string)
    requires s.subdomains.Some? && Get(s.subdomains.value, key) == Some("")
    requires SubdomainMatches(h, key)
    ensures Categorized(Fill(DeleteAll(s, sel)), nu, h)
  {
    DeleteAllGet(s, sel, Subdomains, key);
    var s' := DeleteAll(s, sel);
    FillMap(s', Subdomains);
    assert Applies(Fill(s'), Subdomains, key, nu, h);
    CategorizedIffApplies(Fill(s'), nu, h);
  }
}
