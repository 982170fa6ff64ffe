/**
 The popup's report over one day of the ledger (src/popup/popup.js,
 src/popup/uiManager.js, src/popup/listManager.js and
 src/popup/dataFormatter.js): category headings, the per-category and
 overall totals, and the per-category list that groups sites under a
 root domain, sorted by time, with the first five shown.
 */
module Popup {
  import opened Values
  import opened Strings
  import opened OrderedMaps
  import opened Domains
  import opened Ledgers
  import opened Sorting

  // ---- Headings ----

  /** `str.charAt(0).toUpperCase() + str.slice(1)`. */
  function Capitalize(s: string): (r: string)
    ensures |r| == |s|
    ensures |s| > 0 ==> r[0] == UpperChar(s[0]) && r[1..] == s[1..]
  {
    if |s| == 0 then "" else [UpperChar(s[0])] + s[1..]
  }

  /** `capitalize` of src/popup/dataFormatter.js: `""` for a value that is not a string (`None`). */
  function FormatterCapitalize(v: Option<string>): (r: string)
    ensures v.None? ==> r == ""
    ensures v.Some? ==> r == Capitalize(v.value)
  {
    match v
    case None => ""
    case Some(s) => Capitalize(s)
  }

  /** Capitalizing changes the case of the first character only. */
  lemma CapitalizeKeepsLetters(s: string)
    ensures Lower(Capitalize(s)) == Lower(s)
  {
    if |s| > 0 {
      var c := s[0];
      assert LowerChar(UpperChar(c)) == LowerChar(c);
    }
  }

  lemma CapitalizeTwice(s: string)
    ensures Capitalize(Capitalize(s)) == Capitalize(s)
  {
  }

  // ---- Totals ----

  /** `calculateTotalTime(categoryData)`: the sum of a category's site times. */
  method CalculateTotalTime(sites: Sites) returns (total: int)
    ensures total == Sum(sites)
  {
    total := 0;
    var i := 0;
    while i < |sites|
      invariant 0 <= i <= |sites|
      invariant total == Sum(sites[..i])
    {
      SumByPrefix(sites, i, IntValue);
      total := total + sites[i].1;
      i := i + 1;
    }
    assert sites[..i] == sites;
  }

  /** `calculateOverallTotal(dateData)`: every site time of the day, category by category. */
  method CalculateOverallTotal(day: Day) returns (total: int)
    ensures total == DayTotal(day)
  {
    total := 0;
    var i := 0;
    while i < |day|
      invariant 0 <= i <= |day|
      invariant total == DayTotal(day[..i])
    {
      var t := CalculateTotalTime(day[i].1);
      SumByPrefix(day, i, Sum);
      total := total + t;
      i := i + 1;
    }
    assert day[..i] == day;
  }

  /**
   The inner loop of the totals: each site time is added to the
   category's running total and to the overall total.
   */
  method AddCategorySites(totals: OMap<int>, cat: string, sites: Sites, total: int) returns (totals': OMap<int>, total': int)
    requires HasKey(totals, cat)
    ensures total' == total + Sum(sites)
    ensures Sum(totals') == Sum(totals) + Sum(sites)
    ensures Get(totals', cat) == Some(GetOr(totals, cat, 0) + Sum(sites))
    ensures forall c :: c != cat ==> Get(totals', c) == Get(totals, c)
  {
    totals' := totals;
    total' := total;
    var k := 0;
    while k < |sites|
      invariant 0 <= k <= |sites|
      invariant total' == total + Sum(sites[..k])
      invariant Sum(totals') == Sum(totals) + Sum(sites[..k])
      invariant Get(totals', cat) == Some(GetOr(totals, cat, 0) + Sum(sites[..k]))
      invariant forall c :: c != cat ==> Get(totals', c) == Get(totals, c)
    {
      SumByPrefix(sites, k, IntValue);
      var v := GetOr(totals', cat, 0) + sites[k].1;
      SumByPut(totals', cat, v, IntValue);
      totals' := Put(totals', cat, v);
      total' := total' + sites[k].1;
      k := k + 1;
    }
    assert sites[..k] == sites;
  }

  /**
   The totals loop of `updateDisplay` (src/popup/uiManager.js) and of the
   date display in src/popup/popup.js: `categoryTotals[category] = 0`, then
   each site time is added both to its category's total and to
   `totalTime`. Each category's total is the sum of its sites, there is a
   total for exactly the day's categories, and the totals add up to
   `totalTime`, which is the day's total.
   */
  method CategoryTotals(day: Day) returns (totals: OMap<int>, total: int)
    requires Valid(day)
    ensures total == DayTotal(day)
    ensures Sum(totals) == total
    ensures forall j :: 0 <= j < |day| ==> Get(totals, day[j].0) == Some(Sum(day[j].1))
    ensures forall c :: HasKey(totals, c) <==> HasKey(day, c)
  {
    totals := [];
    total := 0;
    var i := 0;
    while i < |day|
      invariant 0 <= i <= |day|
      invariant total == DayTotal(day[..i])
      invariant Sum(totals) == total
      invariant forall j :: 0 <= j < i ==> Get(totals, day[j].0) == Some(Sum(day[j].1))
      invariant forall c :: HasKey(totals, c) <==> HasKey(day[..i], c)
    {
      var cat := day[i].0;
      FreshInPrefix(day, i);
      SumByPut(totals, cat, 0, IntValue);
      var zeroed := Put(totals, cat, 0);
      var before := totals;
      totals, total := AddCategorySites(zeroed, cat, day[i].1, total);
      SumByPrefix(day, i, Sum);
      forall j | 0 <= j < i + 1 ensures Get(totals, day[j].0) == Some(Sum(day[j].1)) {
        if j < i {
          assert day[j].0 != cat;
        }
      }
      forall c ensures HasKey(totals, c) <==> HasKey(day[..i + 1], c) {
        HasKeyPrefix(day, i, c);
        if c != cat {
          assert Get(totals, c) == Get(zeroed, c) == Get(before, c);
        }
      }
      i := i + 1;
    }
    assert day[..i] == day;
  }

  // ---- Grouping sites under root domains ----

  /** One row of the per-category list: a root domain's total and its sites. */
  datatype RootGroup = RootGroup(totalTime: int, subdomains: Sites)

  const EmptyGroup := RootGroup(0, [])

  /** `aggregated[root]`, or an empty group when absent. */
  function GroupOf(agg: OMap<RootGroup>, root: string): RootGroup {
    GetOr(agg, root, EmptyGroup)
  }

  /**
   One iteration of `aggregateDomains`, for any way `rootOf` of naming a
   site's group: create the group if missing, add the time to its total
   and to the site's entry (a missing entry reads as 0).
   */
  function AddSite(rootOf: string -> string, agg: OMap<RootGroup>, site: string, time: int): (r: OMap<RootGroup>)
    ensures var root := rootOf(site);
            && Get(r, root) == Some(RootGroup(GroupOf(agg, root).totalTime + time, CreditSites(GroupOf(agg, root).subdomains, site, time)))
            && forall other :: other != root ==> Get(r, other) == Get(agg, other)
  {
    var root := rootOf(site);
    var g := GroupOf(agg, root);
    Put(agg, root, RootGroup(g.totalTime + time, CreditSites(g.subdomains, site, time)))
  }

  function AggregateFrom(rootOf: string -> string, agg: OMap<RootGroup>, sites: Sites): OMap<RootGroup>
    decreases |sites|
  {
    if |sites| == 0 then agg
    else AggregateFrom(rootOf, AddSite(rootOf, agg, sites[0].0, sites[0].1), sites[1..])
  }

  /** The popup's `getRootDomain`, as a function of the site. */
  function PopupRootOf(parse: Parser): string -> string {
    site => PopupRootDomain(parse, site)
  }

  /** `aggregateDomains(categoryData)`: the sites in order, grouped by the popup's root domain. */
  function AggregateDomains(parse: Parser, sites: Sites): OMap<RootGroup> {
    AggregateFrom(PopupRootOf(parse), [], sites)
  }

  /** Every group's total is the sum of its sites. */
  ghost predicate GroupsAddUp(agg: OMap<RootGroup>) {
    forall root :: HasKey(agg, root) ==> GroupOf(agg, root).totalTime == Sum(GroupOf(agg, root).subdomains)
  }

  lemma AddSiteAddsUp(rootOf: string -> string, agg: OMap<RootGroup>, site: string, time: int)
    requires GroupsAddUp(agg)
    ensures GroupsAddUp(AddSite(rootOf, agg, site, time))
  {
    var root := rootOf(site);
    var g := GroupOf(agg, root);
    var agg' := AddSite(rootOf, agg, site, time);
    SumCreditSites(g.subdomains, site, time);
    forall r | HasKey(agg', r) ensures GroupOf(agg', r).totalTime == Sum(GroupOf(agg', r).subdomains) {
      if r != root {
        assert Get(agg', r) == Get(agg, r);
      }
    }
  }

  lemma {:induction false} AggregateFromAddsUp(rootOf: string -> string, agg: OMap<RootGroup>, sites: Sites)
    requires GroupsAddUp(agg)
    ensures GroupsAddUp(AggregateFrom(rootOf, agg, sites))
    decreases |sites|
  {
    if |sites| > 0 {
      AddSiteAddsUp(rootOf, agg, sites[0].0, sites[0].1);
      AggregateFromAddsUp(rootOf, AddSite(rootOf, agg, sites[0].0, sites[0].1), sites[1..]);
    }
  }

  /** Each root's `totalTime` equals the sum of its `subdomains`. */
  lemma AggregateAddsUp(parse: Parser, sites: Sites)
    ensures GroupsAddUp(AggregateDomains(parse, sites))
  {
    AggregateFromAddsUp(PopupRootOf(parse), [], sites);
  }

  function TotalTimeOf(g: RootGroup): int { g.totalTime }

  lemma AddSiteTotal(rootOf: string -> string, agg: OMap<RootGroup>, site: string, time: int)
    ensures SumBy(AddSite(rootOf, agg, site, time), TotalTimeOf) == SumBy(agg, TotalTimeOf) + time
  {
    var root := rootOf(site);
    var g := GroupOf(agg, root);
    SumByPut(agg, root, RootGroup(g.totalTime + time, CreditSites(g.subdomains, site, time)), TotalTimeOf);
  }

  lemma {:induction false} AggregateFromTotal(rootOf: string -> string, agg: OMap<RootGroup>, sites: Sites)
    ensures SumBy(AggregateFrom(rootOf, agg, sites), TotalTimeOf) == SumBy(agg, TotalTimeOf) + Sum(sites)
    decreases |sites|
  {
    if |sites| > 0 {
      AddSiteTotal(rootOf, agg, sites[0].0, sites[0].1);
      AggregateFromTotal(rootOf, AddSite(rootOf, agg, sites[0].0, sites[0].1), sites[1..]);
    }
  }

  /** The groups' totals add up to `calculateTotalTime(categoryData)`. */
  lemma AggregateTotal(parse: Parser, sites: Sites)
    ensures SumBy(AggregateDomains(parse, sites), TotalTimeOf) == Sum(sites)
  {
    AggregateFromTotal(PopupRootOf(parse), [], sites);
  }

  /** The sites whose root is `root`, in their original order. */
  function SitesUnder(rootOf: string -> string, sites: Sites, root: string): (r: Sites)
    ensures |r| <= |sites|
    decreases |sites|
  {
    if |sites| == 0 then []
    else if rootOf(sites[0].0) == root then [sites[0]] + SitesUnder(rootOf, sites[1..], root)
    else SitesUnder(rootOf, sites[1..], root)
  }

  /** Credits each site of `more`, in order, to `acc`. */
  function CreditAll(acc: Sites, more: Sites): Sites
    decreases |more|
  {
    if |more| == 0 then acc else CreditAll(CreditSites(acc, more[0].0, more[0].1), more[1..])
  }

  /** Adding a site changes its own group only, by crediting the site. */
  lemma AddSiteGroup(rootOf: string -> string, agg: OMap<RootGroup>, site: string, time: int, root: string)
    ensures GroupOf(AddSite(rootOf, agg, site, time), root).subdomains ==
            if rootOf(site) == root then CreditSites(GroupOf(agg, root).subdomains, site, time)
            else GroupOf(agg, root).subdomains
  {
  }

  lemma {:induction false} AggregateFromGroup(rootOf: string -> string, agg: OMap<RootGroup>, sites: Sites, root: string)
    ensures GroupOf(AggregateFrom(rootOf, agg, sites), root).subdomains ==
            CreditAll(GroupOf(agg, root).subdomains, SitesUnder(rootOf, sites, root))
    decreases |sites|
  {
    if |sites| > 0 {
      AddSiteGroup(rootOf, agg, sites[0].0, sites[0].1, root);
      AggregateFromGroup(rootOf, AddSite(rootOf, agg, sites[0].0, sites[0].1), sites[1..], root);
    }
  }

  /** Crediting a site that is not yet present appends it with its time. */
  lemma CreditNewSite(acc: Sites, e: (string, int))
    requires !HasKey(acc, e.0)
    ensures CreditSites(acc, e.0, e.1) == acc + [e]
  {
  }

  /** Crediting distinct new sites one by one appends them all. */
  lemma {:induction false} CreditAllFresh(acc: Sites, more: Sites)
    requires Valid(acc + more)
    ensures CreditAll(acc, more) == acc + more
    decreases |more|
  {
    if |more| > 0 {
      var e := more[0];
      var all := acc + more;
      assert !HasKey(acc, e.0) by {
        forall i | 0 <= i < |acc| ensures acc[i].0 != e.0 {
          assert all[i] == acc[i] && all[|acc|] == e;
        }
      }
      CreditNewSite(acc, e);
      assert (acc + [e]) + more[1..] == all;
      CreditAllFresh(acc + [e], more[1..]);
    }
  }

  lemma {:induction false} SitesUnderKeys(rootOf: string -> string, sites: Sites, root: string, k: string)
    requires HasKey(SitesUnder(rootOf, sites, root), k)
    ensures HasKey(sites, k) && rootOf(k) == root
    decreases |sites|
  {
    var r := SitesUnder(rootOf, sites, root);
    var rest := SitesUnder(rootOf, sites[1..], root);
    var i :| 0 <= i < |r| && r[i].0 == k;
    if rootOf(sites[0].0) == root && i == 0 {
      assert sites[0].0 == k;
    } else {
      if rootOf(sites[0].0) == root {
        assert rest[i - 1].0 == k;
      }
      SitesUnderKeys(rootOf, sites[1..], root, k);
      var j :| 0 <= j < |sites| - 1 && sites[1..][j].0 == k;
      assert sites[j + 1].0 == k;
    }
  }

  /** Keeping some of a valid map's entries keeps the keys distinct. */
  lemma {:induction false} SitesUnderValid(rootOf: string -> string, sites: Sites, root: string)
    requires Valid(sites)
    ensures Valid(SitesUnder(rootOf, sites, root))
    decreases |sites|
  {
    if |sites| > 0 {
      var rest := SitesUnder(rootOf, sites[1..], root);
      HasKeyTail(sites, sites[0].0);
      SitesUnderValid(rootOf, sites[1..], root);
      if rootOf(sites[0].0) == root {
        forall i | 0 <= i < |rest| ensures rest[i].0 != sites[0].0 {
          if rest[i].0 == sites[0].0 {
            SitesUnderKeys(rootOf, sites[1..], root, sites[0].0);
          }
        }
        ValidCons(sites[0], rest);
      }
    }
  }

  lemma {:induction false} AggregateFromRoots(rootOf: string -> string, agg: OMap<RootGroup>, sites: Sites, root: string)
    ensures HasKey(AggregateFrom(rootOf, agg, sites), root) <==> HasKey(agg, root) || |SitesUnder(rootOf, sites, root)| > 0
    decreases |sites|
  {
    if |sites| > 0 {
      var agg' := AddSite(rootOf, agg, sites[0].0, sites[0].1);
      assert HasKey(agg', root) <==> HasKey(agg, root) || rootOf(sites[0].0) == root by {
        assert Get(agg', root).Some? <==> Get(agg, root).Some? || rootOf(sites[0].0) == root;
      }
      AggregateFromRoots(rootOf, agg', sites[1..], root);
    }
  }

  /** There is a group for a root exactly when some site has that root: no group is empty. */
  lemma AggregateRoots(parse: Parser, sites: Sites, root: string)
    ensures HasKey(AggregateDomains(parse, sites), root) <==> |SitesUnder(PopupRootOf(parse), sites, root)| > 0
  {
    AggregateFromRoots(PopupRootOf(parse), [], sites, root);
  }

  /**
   Each root's `subdomains` are exactly the sites with that root, with
   their times, in the order the category lists them.
   */
  lemma AggregateGroupsSites(parse: Parser, sites: Sites, root: string)
    requires Valid(sites)
    ensures GroupOf(AggregateDomains(parse, sites), root).subdomains == SitesUnder(PopupRootOf(parse), sites, root)
  {
    var under := SitesUnder(PopupRootOf(parse), sites, root);
    AggregateFromGroup(PopupRootOf(parse), [], sites, root);
    SitesUnderValid(PopupRootOf(parse), sites, root);
    assert [] + under == under;
    CreditAllFresh([], under);
  }

  /** A site's time is found in its root's list, and only there. */
  lemma {:induction false} SitesUnderGet(rootOf: string -> string, sites: Sites, root: string, x: string)
    ensures Get(SitesUnder(rootOf, sites, root), x) == if rootOf(x) == root then Get(sites, x) else None
    decreases |sites|
  {
    if |sites| > 0 {
      GetUnfold(sites, x);
      SitesUnderGet(rootOf, sites[1..], root, x);
      if rootOf(sites[0].0) == root {
        GetCons(sites[0], SitesUnder(rootOf, sites[1..], root), x);
      }
    }
  }

  /**
   Every site lands in exactly one group, the one its root domain names,
   with its original time; no group holds anything else.
   */
  lemma AggregatePlacesSites(parse: Parser, sites: Sites, root: string, x: string)
    requires Valid(sites)
    ensures Get(GroupOf(AggregateDomains(parse, sites), root).subdomains, x) ==
            if PopupRootDomain(parse, x) == root then Get(sites, x) else None
  {
    AggregateGroupsSites(parse, sites, root);
    SitesUnderGet(PopupRootOf(parse), sites, root, x);
  }

  // ---- Sorting and the first five ----

  /** `this.displayLimit`. */
  const DisplayLimit := 5

  function GroupTime(e: (string, RootGroup)): int { e.1.totalTime }

  /** `Object.entries(aggregatedDomains)` sorted by total time, largest first. */
  function SortedDomains(parse: Parser, sites: Sites): (r: seq<(string, RootGroup)>)
    ensures multiset(r) == multiset(AggregateDomains(parse, sites))
  {
    Sort(AggregateDomains(parse, sites), ByKeyDesc(GroupTime))
  }

  /** How many groups are shown before "Show More". */
  function ShownCount(n: nat): (k: nat)
    ensures k <= n && k <= DisplayLimit
    ensures k == n || k == DisplayLimit
  {
    if n < DisplayLimit then n else DisplayLimit
  }

  /** `sortedDomains.slice(0, this.displayLimit)`. */
  function TopDomains(parse: Parser, sites: Sites): seq<(string, RootGroup)> {
    var sorted := SortedDomains(parse, sites);
    sorted[..ShownCount(|sorted|)]
  }

  /** `sortedDomains.slice(this.displayLimit)`. */
  function RemainingDomains(parse: Parser, sites: Sites): seq<(string, RootGroup)> {
    var sorted := SortedDomains(parse, sites);
    sorted[ShownCount(|sorted|)..]
  }

  /**
   The shown and hidden groups are together every group once: the shown
   part is the first five, or all groups when there are fewer.
   */
  lemma SplitIsPermutation(parse: Parser, sites: Sites)
    ensures var all := AggregateDomains(parse, sites);
            && multiset(TopDomains(parse, sites) + RemainingDomains(parse, sites)) == multiset(all)
            && |TopDomains(parse, sites)| == ShownCount(|all|)
  {
    var sorted := SortedDomains(parse, sites);
    assert TopDomains(parse, sites) + RemainingDomains(parse, sites) == sorted;
  }

  /** Cutting a sequence sorted by decreasing key puts every larger key first. */
  lemma SortedCut<T>(s: seq<T>, key: T -> int, n: nat)
    requires Sorted(s, ByKeyDesc(key)) && n <= |s|
    ensures forall a, b :: a in s[..n] && b in s[n..] ==> key(a) >= key(b)
  {
    forall a, b | a in s[..n] && b in s[n..] ensures key(a) >= key(b) {
      var i :| 0 <= i < n && s[..n][i] == a;
      var j :| 0 <= j < |s| - n && s[n..][j] == b;
      assert ByKeyDesc(key)(s[i], s[n + j]);
    }
  }

  /** Every shown group has at least the total time of every hidden one, and the list is in decreasing order. */
  lemma SplitDomainsOrdered(parse: Parser, sites: Sites)
    ensures Sorted(TopDomains(parse, sites) + RemainingDomains(parse, sites), ByKeyDesc(GroupTime))
    ensures forall a, b :: a in TopDomains(parse, sites) && b in RemainingDomains(parse, sites) ==> a.1.totalTime >= b.1.totalTime
  {
    var sorted := SortedDomains(parse, sites);
    ByKeyDescTotal(GroupTime);
    SortSorted(AggregateDomains(parse, sites), ByKeyDesc(GroupTime));
    assert TopDomains(parse, sites) + RemainingDomains(parse, sites) == sorted;
    SortedCut(sorted, GroupTime, ShownCount(|sorted|));
  }
}
